/** The class factory of src/gpgex-factory.cc: a singleton without a
    reference count of its own that creates shell extension objects and
    locks the server component. */
module ClassFactory {
  import opened Common
  import opened ServerRef
  import opened ShellExtension

  /** The interfaces the factory hands out. */
  predicate FactoryExposed(iid: Iid)
  {
    iid == IUnknown || iid == IClassFactory
  }

  /** The factory's QueryInterface: the HRESULT and the interface stored
      in *ppv (None for NULL). */
  function FactoryQuery(iid: Iid, ppvNull: bool): (int, Option<Iid>)
  {
    if ppvNull then (E_INVALIDARG, None)
    else if iid == IUnknown || iid == IClassFactory then (S_OK, Some(iid))
    else (E_NOINTERFACE, None)
  }

  /** A NULL ppv is refused; only IUnknown and IClassFactory are handed
      out, and on every other outcome *ppv is NULL. */
  lemma FactoryQueryRules(iid: Iid, ppvNull: bool)
    ensures var (hr, ppv) := FactoryQuery(iid, ppvNull);
      && (ppvNull ==> hr == E_INVALIDARG)
      && (hr == S_OK <==> !ppvNull && FactoryExposed(iid))
      && (hr == S_OK ==> ppv == Some(iid))
      && (hr != S_OK ==> ppv == None && Failed(hr))
  {
  }

  class Factory {

    constructor ()
    {
    }

    /** AddRef: the singleton keeps no count. */
    method AddRef() returns (count: int)
      ensures count == 1
    {
      count := 1;
    }

    /** Release: the singleton keeps no count. */
    method Release() returns (count: int)
      ensures count == 1
    {
      count := 1;
    }

    /** QueryInterface, with the AddRef on the interface handed out. */
    method QueryInterface(iid: Iid, ppvNull: bool) returns (hr: int, ppv: Option<Iid>)
      ensures (hr, ppv) == FactoryQuery(iid, ppvNull)
    {
      if ppvNull {
        return E_INVALIDARG, None;
      }
      ppv := None;
      if iid == IUnknown || iid == IClassFactory {
        ppv := Some(iid);
      } else {
        return E_NOINTERFACE, ppv;
      }
      var _ := AddRef();
      hr := S_OK;
    }

    /** CreateInstance: aggregation is refused; a new extension object is
        asked for the interface, and deleted again, giving back its server
        reference, when it does not have it. `allocOk` tells whether `new`
        returned an object and `keyBitmap` whether its bitmap loaded. */
    method CreateInstance(outer: bool, iid: Iid, server: Server, allocOk: bool, keyBitmap: bool)
      returns (hr: int, obj: Option<Extension>)
      modifies server
      ensures outer ==> hr == CLASS_E_NOAGGREGATION
      ensures !outer && !allocOk ==> hr == E_OUTOFMEMORY
      ensures !outer && allocOk && !Exposed(iid) ==> hr == E_NOINTERFACE
      ensures hr == S_OK <==> !outer && allocOk && Exposed(iid)
      ensures hr != S_OK ==> obj == None && server.refcount == old(server.refcount)
      ensures hr == S_OK ==>
                && obj.Some? && fresh(obj.value)
                && obj.value.server == server && obj.value.refcount == 1 && obj.value.filenames == []
                && server.refcount == old(server.refcount) + 1
    {
      if outer {
        return CLASS_E_NOAGGREGATION, None;
      }
      if !allocOk {
        return E_OUTOFMEMORY, None;
      }
      var gpgex := new Extension(server, keyBitmap);
      var ppv;
      hr, ppv := gpgex.QueryInterface(iid, false);
      if Failed(hr) {
        // delete gpgex: its destructor gives back the server reference.
        var _ := server.Release();
        return hr, None;
      }
      obj := Some(gpgex);
    }

    /** LockServer: TRUE takes a server reference and FALSE gives one
        back, so a lock followed by an unlock leaves the count as it
        was. */
    method LockServer(lock: bool, server: Server) returns (hr: int)
      modifies server
      ensures hr == S_OK
      ensures server.refcount == old(server.refcount) + (if lock then 1 else -1)
    {
      if lock {
        var _ := server.AddRef();
      } else {
        var _ := server.Release();
      }
      hr := S_OK;
    }
  }
}
