/**
 * The small C++ wrapper over the Omniverse client library used by the live
 * connector: the success test on client results, the blocking `Stat` call and
 * the scoped server-side lock.
 */
module OmniClient {
  import opened MaybeError
  import opened Wrappers

  /** Results of the client library; codes the wrapper never names are lumped together. */
  datatype ClientResult = Ok | OkLatest | OkNotYetFound | Error | ErrorNotFound | OtherError(code: nat)

  /** `CheckClientResult`: only `Ok` and `OkLatest` count as success. */
  predicate CheckClientResult(r: ClientResult)
  {
    r == Ok || r == OkLatest
  }

  /** The entry a stat request reports; its fields are not interpreted here. */
  datatype ListEntry = ListEntry(relativePath: string, size: nat, version: string)

  /**
   * `OmniverseSync::Stat`. `reply` is what the library passed to the
   * completion callback, or `None` if it never called it.
   */
  method Stat(reply: Option<(ClientResult, ListEntry)>) returns (ret: MaybeError<ListEntry, ClientResult>)
    ensures ret.Ok() <==> reply.Some? && CheckClientResult(reply.value.0)
    ensures ret.Ok() ==> ret.Value() == reply.value.1
    ensures !ret.Ok() ==> ret.Error() == if reply.Some? then reply.value.0 else Error
  {
    ret := FromError(Error);
    if reply.Some? {
      var (clientResult, entry) := reply.value;
      if !CheckClientResult(clientResult) {
        ret := FromError(clientResult);
      } else {
        ret := FromValue(entry);
      }
    }
  }

  datatype LockCall = LockUrl(url: string) | UnlockUrl(url: string)

  /** The calls the program made to the server's lock API, in order. */
  class LockLog {
    var calls: seq<LockCall>

    constructor ()
      ensures calls == []
    {
      calls := [];
    }
  }

  /** `OmniverseLock`: holds a server lock on one URL for its lifetime. */
  class OmniverseLock {
    const url: string
    const log: LockLog

    constructor (url: string, log: LockLog)
      modifies log
      ensures this.url == url && this.log == log
      ensures log.calls == old(log.calls) + [LockUrl(url)]
    {
      this.url := url;
      this.log := log;
      new;
      log.calls := log.calls + [LockUrl(url)];
    }

    /** The destructor: unlocks the URL the constructor locked. */
    method Release()
      modifies log
      ensures log.calls == old(log.calls) + [UnlockUrl(url)]
    {
      log.calls := log.calls + [UnlockUrl(url)];
    }
  }

  /** A scope holding an `OmniverseLock`: lock and unlock name the same URL. */
  method LockedScope(url: string, log: LockLog)
    modifies log
    ensures log.calls == old(log.calls) + [LockUrl(url), UnlockUrl(url)]
  {
    var lock := new OmniverseLock(url, log);
    lock.Release();
  }
}
