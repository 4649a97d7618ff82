/** `Downloader.ActiveRetrieverCache`: the registry from a retriever to the
    post-processor of its fetch, identified by a reference (`nat`). */
module ActiveRetrievers {
  import opened Wrappers
  import opened Retrieval

  type Registry = map<Retriever, nat>

  /** `getActiveRetriever`: the post-processor registered for an equal retriever, or null. */
  function Lookup(reg: Registry, r: Retriever): (o: Option<nat>)
    ensures o.Some? <==> r in reg
    ensures o.Some? ==> o.value == reg[r]
  {
    if r in reg then Some(reg[r]) else None
  }

  /** `addRetriever`: registers (or re-registers) one retriever. */
  function Add(reg: Registry, r: Retriever, pp: nat): (reg': Registry)
    ensures Lookup(reg', r) == Some(pp)
    ensures forall q :: q != r ==> Lookup(reg', q) == Lookup(reg, q)
  {
    reg[r := pp]
  }

  /** `removeNonActiveRetrievers`: when the service reports nothing pending the
      registry is emptied; otherwise exactly the retrievers the service no longer
      holds are dropped, and the rest keep their post-processor. */
  function Sweep(reg: Registry, pendingCount: int, pending: set<Retriever>): (reg': Registry)
    ensures pendingCount <= 0 ==> reg' == map[]
    ensures pendingCount > 0 ==> reg'.Keys == reg.Keys * pending
    ensures forall r :: r in reg' ==> r in reg && reg'[r] == reg[r]
  {
    if pendingCount <= 0 then map[] else map r | r in reg && r in pending :: reg[r]
  }

  /** Sweeping twice with the same report is sweeping once. */
  lemma SweepIdempotent(reg: Registry, pendingCount: int, pending: set<Retriever>)
    ensures Sweep(Sweep(reg, pendingCount, pending), pendingCount, pending) == Sweep(reg, pendingCount, pending)
  {
  }

  /** After a sweep a lookup succeeds exactly for registered retrievers the
      service still holds, and then yields the same post-processor as before. */
  lemma LookupAfterSweep(reg: Registry, pendingCount: int, pending: set<Retriever>, r: Retriever)
    ensures Lookup(Sweep(reg, pendingCount, pending), r) ==
      (if pendingCount > 0 && r in pending then Lookup(reg, r) else None)
  {
  }
}
