/** The extraction's result is the premise of the cache's cap. */
module ComicPaging {
  import opened Common
  import opened Occupancy
  import opened CacheState
  import opened CacheSystem
  import opened CacheCap
  import opened ComicExtraction
  import ComicRead
  import ComicWalk

  /** Between pages an extraction holds at most its budget, and while it copies
      a page at most one byte more. */
  lemma CopyStaysWithinBudget(names: seq<string>, budget: nat, done: set<string>, s: Progress)
    requires Sound(names, budget, done, s)
    ensures Occupied(s.files) <= budget
    ensures Occupied(s.files) + CopyLimit(ComicMaxPageBytes, budget - s.total) + 1 <= budget + 1
  {
  }

  /** Every sink call leaves the directory in a state the cache allows a filler
      to write. */
  lemma TakeIsAWriteWithinBudget(sys: System, t: Tid, names: seq<string>, done: set<string>, s: Progress, name: string, r: ComicWalk.Reader)
    requires Running(sys, t) && sys.threads[t].pc.Filling? && sys.cache.archiveBudget >= 0
    requires Sound(names, sys.cache.archiveBudget, done, s) && name in names && name !in done
    ensures WithinBudget(sys, Write(t, Take(names, sys.cache.archiveBudget, s, name, r).s.files))
  {
    SinkKeepsSound(names, sys.cache.archiveBudget);
    var sink := PageSink(names, sys.cache.archiveBudget);
    var inv := (d: set<string>, p: Progress) => Sound(names, sys.cache.archiveBudget, d, p);
    ComicRead.KeptStep(Wanted(names), done, sink, s, name, r, inv);
  }

  /** An extraction that succeeds under the cache's per-archive budget returns a
      size the cap can rely on. */
  lemma ExtractionRespectsBudget(sys: System, t: Tid, names: seq<string>, pages: seq<Page>, total: int)
    requires Running(sys, t) && sys.threads[t].pc.Filling? && sys.threads[t].pc.tmp in sys.cache.disk
    requires Extracted(names, sys.cache.archiveBudget, pages, total, sys.cache.disk[sys.threads[t].pc.tmp])
    ensures WithinBudget(sys, FillReturns(t, total))
  {
  }
}
