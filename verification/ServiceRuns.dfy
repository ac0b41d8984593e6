/**
  The service answering requests: its methods do what the runs of StorageRuns are made of.
 */
module ServiceRuns {
  import opened Wrappers
  import opened VirtualPath
  import opened StorageState
  import opened TrashIntegrity
  import opened TrashPaths
  import opened StorageRequests
  import opened StorageRuns
  import opened StorageService

  // Paths are normalised, and of the namespaces of this model.
  ghost predicate Arrives(q: Request) {
    match q
    case Mkdir(_, p) => Normal(p) && Routed(p)
    case Save(_, d, _, _) => Normal(d) && Routed(d)
    case Rename(_, f, t) => Normal(f) && Routed(f) && Normal(t) && Routed(t)
    case Delete(_, p, _) => Normal(p) && Routed(p)
    case Purge(_) => true
  }

  // The service takes every such request to a state and an answer that the request can lead to.
  method Handle(service: Service, q: Request) returns (r: Outcome)
    requires Arrives(q)
    modifies service
    ensures Serves(old(service.Snapshot()), q, service.Snapshot(), r)
  {
    match q {
      case Mkdir(u, p) =>
        NormalizeIdempotent(p);
        r := service.Mkdir(u, p);
      case Save(u, d, n, data) =>
        NormalizeIdempotent(d);
        r := service.SaveFile(u, d, n, data);
      case Rename(u, f, t) =>
        NormalizeIdempotent(f);
        NormalizeIdempotent(t);
        r := service.Rename(u, f, t);
      case Delete(u, p, now) =>
        NormalizeIdempotent(p);
        r := service.Delete(u, p, now);
      case Purge(cutoff) =>
        service.Purge(cutoff);
        r := Ok(());
    }
  }

  // Answering a harmless request keeps the trash whole; answering a tidy one, tree and index in agreement.
  method HandleKeeps(service: Service, q: Request) returns (r: Outcome)
    requires Arrives(q)
    requires var s := service.Snapshot(); Valid(s) && Integrity(s) && Rooted(s.trash) && InScope(s, q) && Harmless(s, q)
    modifies service
    ensures var s, s' := old(service.Snapshot()), service.Snapshot();
            && (Unguessed(s') ==> KeepsTrash(s, s', LeavesNoOrphan(s, q)))
            && (Agree(s) && Tidy(s, q) ==> Agree(s'))
  {
    ghost var s := service.Snapshot();
    r := Handle(service, q);
    ghost var s' := service.Snapshot();
    if Unguessed(s') { StepIntegrity(s, q, s', r); }
    if Agree(s) && Tidy(s, q) { StepAgreement(s, q, s', r); }
  }
}
