/** Duplicate suppression: internal/queue/dedup.go. */
module Dedup {

  datatype Entry = Entry(printer: string, job: string, at: int)

  /** Per printer, the jobs processed and when. */
  type Seen = map<string, map<string, int>>

  const DEFAULT_RETENTION: int := 7 * 24 * 3600 * 1_000_000_000

  predicate Has(seen: Seen, printer: string, job: string) {
    printer in seen && job in seen[printer]
  }

  function KeepRecent(byJob: map<string, int>, cutoff: int): map<string, int> {
    map job | job in byJob && byJob[job] >= cutoff :: byJob[job]
  }

  /** Drops entries older than the cutoff, and printers left without any. */
  function Pruned(seen: Seen, cutoff: int): Seen {
    map printer | printer in seen && KeepRecent(seen[printer], cutoff) != map[] :: KeepRecent(seen[printer], cutoff)
  }

  function Noted(seen: Seen, printer: string, job: string, at: int): Seen {
    seen[printer := (if printer in seen then seen[printer] else map[])[job := at]]
  }

  // ---- The log the store stands for ----

  ghost predicate Ascending(log: seq<Entry>, now: int) {
    && (forall i :: 0 <= i < |log| ==> log[i].at <= now)
    && (forall i, k :: 0 <= i < k < |log| ==> log[i].at <= log[k].at)
  }

  lemma AscendingLater(log: seq<Entry>, clock: int, now: int)
    requires Ascending(log, clock) && clock <= now
    ensures Ascending(log, now)
  {
  }

  /** Some record of this printer and job is no older than the cutoff. */
  ghost predicate Recent(log: seq<Entry>, printer: string, job: string, cutoff: int) {
    exists i :: 0 <= i < |log| && log[i].printer == printer && log[i].job == job && log[i].at >= cutoff
  }

  /** The store knows the latest record of every key, except of keys last recorded before `forgotten`. */
  ghost predicate Reflects(seen: Seen, log: seq<Entry>, forgotten: int) {
    && (forall p, j :: Has(seen, p, j) ==> Recent(log, p, j, seen[p][j]))
    && (forall i :: 0 <= i < |log| ==>
          if Has(seen, log[i].printer, log[i].job) then log[i].at <= seen[log[i].printer][log[i].job]
          else log[i].at < forgotten)
  }

  /** The pruned map answers exactly as the full log would. */
  lemma StoreAnswersFromLog(seen: Seen, log: seq<Entry>, forgotten: int, cutoff: int, printer: string, job: string)
    requires Reflects(seen, log, forgotten) && forgotten <= cutoff
    ensures Has(Pruned(seen, cutoff), printer, job) <==> Recent(log, printer, job, cutoff)
    ensures Reflects(Pruned(seen, cutoff), log, cutoff)
  {
    var pruned := Pruned(seen, cutoff);
    forall p, j
      ensures Has(pruned, p, j) <==> Has(seen, p, j) && seen[p][j] >= cutoff
      ensures Has(pruned, p, j) ==> pruned[p][j] == seen[p][j]
    {
      if Has(seen, p, j) && seen[p][j] >= cutoff {
        assert j in KeepRecent(seen[p], cutoff);
      }
    }
  }

  lemma NotingReflects(seen: Seen, log: seq<Entry>, forgotten: int, printer: string, job: string, now: int)
    requires Reflects(seen, log, forgotten) && Ascending(log, now)
    ensures Reflects(Noted(seen, printer, job, now), log + [Entry(printer, job, now)], forgotten)
    ensures Ascending(log + [Entry(printer, job, now)], now)
  {
    var noted, longer := Noted(seen, printer, job, now), log + [Entry(printer, job, now)];
    assert longer[|log|] == Entry(printer, job, now);
    forall p, j | Has(noted, p, j)
      ensures Recent(longer, p, j, noted[p][j])
    {
      if p != printer || j != job {
        var i :| 0 <= i < |log| && log[i].printer == p && log[i].job == j && log[i].at >= seen[p][j];
        assert longer[i] == log[i];
      }
    }
  }

  // ---- The store ----

  class DedupStore {
    const retention: int
    var seen: Seen
    /** Every record made so far, the cutoff of the last pruning, and the latest clock reading. */
    ghost var log: seq<Entry>
    ghost var forgotten: int
    ghost var clock: int

    ghost predicate Valid()
      reads this
    {
      && retention > 0
      && Reflects(seen, log, forgotten)
      && Ascending(log, clock)
      && forgotten <= clock - retention
    }

    constructor (retention: int, now: int)
      ensures Valid() && log == [] && clock == now
      ensures this.retention == if retention <= 0 then DEFAULT_RETENTION else retention
    {
      this.retention := if retention <= 0 then DEFAULT_RETENTION else retention;
      seen, log, clock := map[], [], now;
      forgotten := now - (if retention <= 0 then DEFAULT_RETENTION else retention);
    }

    method SeenRecently(printer: string, job: string, now: int) returns (r: bool)
      requires Valid() && now >= clock
      modifies this
      ensures Valid() && log == old(log) && clock == now
      ensures r <==> Recent(log, printer, job, now - retention)
      ensures forall p :: p in seen ==> seen[p] != map[]
    {
      StoreAnswersFromLog(seen, log, forgotten, now - retention, printer, job);
      Prune(now);
      if printer !in seen {
        return false;
      }
      return job in seen[printer];
    }

    method Record(printer: string, job: string, now: int)
      requires Valid() && now >= clock
      modifies this
      ensures Valid() && log == old(log) + [Entry(printer, job, now)] && clock == now
      ensures seen == Noted(old(seen), printer, job, now)
    {
      NotingReflects(seen, log, forgotten, printer, job, now);
      var byJob := if printer in seen then seen[printer] else map[];
      byJob := byJob[job := now];
      seen := seen[printer := byJob];
      log, clock := log + [Entry(printer, job, now)], now;
    }

    method Prune(now: int)
      requires Valid() && now >= clock
      modifies this
      ensures seen == Pruned(old(seen), now - retention)
      ensures log == old(log) && clock == now && forgotten == now - retention
      ensures Valid()
    {
      hide Reflects, Pruned, Ascending;
      StoreAnswersFromLog(seen, log, forgotten, now - retention, "", "");
      AscendingLater(log, clock, now);
      seen := PrunePrinters(seen, now - retention);
      clock, forgotten := now, now - retention;
    }
  }

  /** A record suppresses up to its retention exactly, which is 604800 seconds unless a positive one is given. */
  method SuppressesUntil(retention: int, elapsed: nat) returns (seen: bool)
    ensures seen <==> elapsed <= if retention > 0 then retention else 604_800_000_000_000
  {
    var store := new DedupStore(retention, 0);
    store.Record("printer", "job", 0);
    seen := store.SeenRecently("printer", "job", elapsed);
    assert store.log[0] == Entry("printer", "job", 0);
  }

  method PrunePrinters(was: Seen, cutoff: int) returns (seen: Seen)
    ensures seen == Pruned(was, cutoff)
  {
    hide KeepRecent;
    seen := was;
    var pids := was.Keys;
    while pids != {}
      invariant pids <= was.Keys && seen.Keys <= was.Keys
      invariant forall p :: p in pids ==> p in seen && seen[p] == was[p]
      invariant forall p :: p in was && p !in pids ==> (p in seen <==> KeepRecent(was[p], cutoff) != map[])
      invariant forall p :: p in seen && p !in pids ==> seen[p] == KeepRecent(was[p], cutoff)
      decreases pids
    {
      var pid :| pid in pids;
      var byJob := PruneJobs(seen[pid], cutoff);
      if |byJob| == 0 {
        seen := seen - {pid};
      } else {
        seen := seen[pid := byJob];
      }
      pids := pids - {pid};
    }
  }

  method PruneJobs(byJob: map<string, int>, cutoff: int) returns (kept: map<string, int>)
    ensures kept == KeepRecent(byJob, cutoff)
  {
    kept := byJob;
    var jobs := byJob.Keys;
    while jobs != {}
      invariant jobs <= byJob.Keys && kept.Keys <= byJob.Keys
      invariant forall j :: j in kept ==> kept[j] == byJob[j]
      invariant forall j :: j in byJob ==> (j in kept <==> j in jobs || byJob[j] >= cutoff)
      decreases jobs
    {
      var jid :| jid in jobs;
      if kept[jid] < cutoff {
        kept := kept - {jid};
      }
      jobs := jobs - {jid};
    }
  }
}
