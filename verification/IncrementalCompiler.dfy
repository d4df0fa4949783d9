/**
 * src/compiler/IncrementalCompiler.ts: the per-source loop of compileWithMetrics over a cache that may be shared,
 * cleared, expired, refreshed on demand and used as a fallback when a download fails.
 *
 * What the network and the clock do is input: each source of a compile comes with the outcome of its download (used
 * only if the code downloads it), the content hash, and the two times the code reads.
 */
module IncrementalCompiler {
  import opened Options
  import opened CacheKey

  type Rules = seq<string>

  datatype Entry = Entry(source: string, contentHash: string, rules: Rules, timestamp: int)

  type Cache = map<string, Entry>

  datatype Settings = Settings(maxCacheAge: int, forceRefresh: set<string>)

  /** One source to compile: checkedAt is read by shouldRecompile, storedAt when the result is cached. */
  datatype Job = Job(source: Source, checkedAt: int, download: Option<Rules>, contentHash: string, storedAt: int)

  /** How one source was served. */
  datatype Verdict = Cached(entry: Entry) | Fresh(rules: Rules) | Fallback(entry: Entry) | Failure

  datatype SourceResult = SourceResult(source: Source, rules: Rules, fromCache: bool)

  datatype Outcome =
    | Compiled(results: seq<SourceResult>, recompiled: seq<string>, cached: seq<string>, timeSavedMs: int)
    | Threw(at: nat)

  function Get(cache: Cache, k: string): Option<Entry> {
    if k in cache then Some(cache[k]) else None
  }

  predicate ShouldRecompile(opts: Settings, job: Job, entry: Entry) {
    job.source.source in opts.forceRefresh || job.checkedAt - entry.timestamp > opts.maxCacheAge
  }

  function Serve(cache: Cache, opts: Settings, job: Job): Verdict {
    var cached := Get(cache, Key(job.source));
    if cached.Some? && !ShouldRecompile(opts, job, cached.value) then Cached(cached.value)
    else if job.download.Some? then Fresh(job.download.value)
    else if cached.Some? then Fallback(cached.value)
    else Failure
  }

  function Stored(cache: Cache, opts: Settings, job: Job): Cache {
    match Serve(cache, opts, job)
    case Fresh(rules) => cache[Key(job.source) := Entry(job.source.source, job.contentHash, rules, job.storedAt)]
    case _ => cache
  }

  /** The cache when the n-th source is looked up. */
  function CacheAt(cache: Cache, opts: Settings, jobs: seq<Job>, n: nat): Cache
    requires n <= |jobs|
  {
    if n == 0 then cache else Stored(CacheAt(cache, opts, jobs, n - 1), opts, jobs[n - 1])
  }

  function VerdictAt(cache: Cache, opts: Settings, jobs: seq<Job>, n: nat): Verdict
    requires n < |jobs|
  {
    Serve(CacheAt(cache, opts, jobs, n), opts, jobs[n])
  }

  function ResultOf(s: Source, v: Verdict): SourceResult
    requires !v.Failure?
  {
    match v
    case Fresh(rules) => SourceResult(s, rules, false)
    case Cached(entry) => SourceResult(s, entry.rules, true)
    case Fallback(entry) => SourceResult(s, entry.rules, true)
  }

  ghost predicate NoFailure(cache: Cache, opts: Settings, jobs: seq<Job>, n: nat)
    requires n <= |jobs|
  {
    n == 0 || (NoFailure(cache, opts, jobs, n - 1) && !VerdictAt(cache, opts, jobs, n - 1).Failure?)
  }

  /** sourceResults after n sources. */
  ghost function Results(cache: Cache, opts: Settings, jobs: seq<Job>, n: nat): seq<SourceResult>
    requires n <= |jobs| && NoFailure(cache, opts, jobs, n)
  {
    if n == 0 then []
    else Results(cache, opts, jobs, n - 1) + [ResultOf(jobs[n - 1].source, VerdictAt(cache, opts, jobs, n - 1))]
  }

  /** The sources among the first n whose verdict is one of the chosen ones, in order. */
  function Named(cache: Cache, opts: Settings, jobs: seq<Job>, n: nat, pick: Verdict -> bool): seq<string>
    requires n <= |jobs|
  {
    if n == 0 then []
    else Named(cache, opts, jobs, n - 1, pick)
         + (if pick(VerdictAt(cache, opts, jobs, n - 1)) then [jobs[n - 1].source.source] else [])
  }

  predicate Recompiles(v: Verdict) { !v.Cached? }
  predicate UsesCache(v: Verdict) { v.Cached? || v.Fallback? }
  predicate Hits(v: Verdict) { v.Cached? }

  /** One use of the shared cache, by any compiler instance. */
  datatype Use = Compile(opts: Settings, jobs: seq<Job>) | Clear

  /** Where the loop stops: the index of the first failing source, or the number of sources. */
  function StopsAt(cache: Cache, opts: Settings, jobs: seq<Job>, n: nat): (stop: nat)
    requires n <= |jobs|
    ensures n <= stop <= |jobs|
    decreases |jobs| - n
  {
    if n == |jobs| || VerdictAt(cache, opts, jobs, n).Failure? then n else StopsAt(cache, opts, jobs, n + 1)
  }

  function CacheAfter(cache: Cache, use: Use): Cache {
    match use
    case Clear => map[]
    case Compile(opts, jobs) => CacheAt(cache, opts, jobs, StopsAt(cache, opts, jobs, 0))
  }

  function CacheAfterAll(cache: Cache, uses: seq<Use>): Cache
    decreases |uses|
  {
    if uses == [] then cache else CacheAfterAll(CacheAfter(cache, uses[0]), uses[1..])
  }

  lemma {:induction false} StopsAtTheFirstFailure(cache: Cache, opts: Settings, jobs: seq<Job>, i: nat, stop: nat)
    requires i <= stop <= |jobs| && NoFailure(cache, opts, jobs, stop)
    requires stop < |jobs| ==> VerdictAt(cache, opts, jobs, stop).Failure?
    ensures StopsAt(cache, opts, jobs, i) == stop
    decreases stop - i
  {
    if i < stop {
      NoFailureBefore(cache, opts, jobs, i, stop);
      StopsAtTheFirstFailure(cache, opts, jobs, i + 1, stop);
    }
  }

  lemma {:induction false} NoFailureBefore(cache: Cache, opts: Settings, jobs: seq<Job>, i: nat, n: nat)
    requires i < n <= |jobs| && NoFailure(cache, opts, jobs, n)
    ensures !VerdictAt(cache, opts, jobs, i).Failure?
    decreases n
  {
    if i < n - 1 {
      NoFailureBefore(cache, opts, jobs, i, n - 1);
    }
  }

  class MemoryCacheStorage {
    var cache: Cache

    constructor ()
      ensures cache == map[]
    {
      cache := map[];
    }

    method Lookup(k: string) returns (entry: Option<Entry>)
      ensures entry == Get(cache, k)
    {
      entry := if k in cache then Some(cache[k]) else None;
    }

    method Set(k: string, entry: Entry)
      modifies this
      ensures cache == old(cache)[k := entry]
    {
      cache := cache[k := entry];
    }

    method Clear()
      modifies this
      ensures cache == map[]
    {
      cache := map[];
    }
  }

  class Compiler {
    const storage: MemoryCacheStorage
    const opts: Settings

    constructor (storage: MemoryCacheStorage, opts: Settings)
      ensures this.storage == storage && this.opts == opts
    {
      this.storage, this.opts := storage, opts;
    }

    /** One turn of the loop: look up, download if needed, store, fall back. */
    method ServeSource(job: Job) returns (verdict: Verdict)
      modifies storage
      ensures verdict == Serve(old(storage.cache), opts, job)
      ensures storage.cache == Stored(old(storage.cache), opts, job)
    {
      var cacheKey := Key(job.source);
      var cached := storage.Lookup(cacheKey);
      if cached.Some? && !ShouldRecompile(opts, job, cached.value) {
        return Cached(cached.value);
      }
      if job.download.Some? {
        var rules := job.download.value;
        storage.Set(cacheKey, Entry(job.source.source, job.contentHash, rules, job.storedAt));
        return Fresh(rules);
      }
      return if cached.Some? then Fallback(cached.value) else Failure;
    }

    /** The loop over the sources. It throws at the first source that has neither a download nor a cached entry. */
    method CompileSources(jobs: seq<Job>) returns (outcome: Outcome)
      modifies storage
      ensures outcome.Threw? ==>
                && outcome.at < |jobs|
                && VerdictAt(old(storage.cache), opts, jobs, outcome.at).Failure?
                && NoFailure(old(storage.cache), opts, jobs, outcome.at)
      ensures storage.cache == CacheAfter(old(storage.cache), Compile(opts, jobs))
      ensures outcome.Compiled? ==>
                && NoFailure(old(storage.cache), opts, jobs, |jobs|)
                && outcome.results == Results(old(storage.cache), opts, jobs, |jobs|)
                && outcome.recompiled == Named(old(storage.cache), opts, jobs, |jobs|, Recompiles)
                && outcome.cached == Named(old(storage.cache), opts, jobs, |jobs|, UsesCache)
                && outcome.timeSavedMs == 500 * |Named(old(storage.cache), opts, jobs, |jobs|, Hits)|
    {
      ghost var c := storage.cache;
      var results: seq<SourceResult>, recompiled: seq<string>, cached: seq<string>, saved := [], [], [], 0;
      var i := 0;
      while i < |jobs|
        invariant 0 <= i <= |jobs|
        invariant storage.cache == CacheAt(c, opts, jobs, i) && NoFailure(c, opts, jobs, i)
        invariant results == Results(c, opts, jobs, i)
        invariant recompiled == Named(c, opts, jobs, i, Recompiles)
        invariant cached == Named(c, opts, jobs, i, UsesCache)
        invariant saved == 500 * |Named(c, opts, jobs, i, Hits)|
      {
        var source := jobs[i].source;
        var verdict := ServeSource(jobs[i]);
        match verdict {
          case Cached(entry) =>
            results := results + [SourceResult(source, entry.rules, true)];
            cached := cached + [source.source];
            saved := saved + 500;
          case Fresh(rules) =>
            recompiled := recompiled + [source.source];
            results := results + [SourceResult(source, rules, false)];
          case Fallback(entry) =>
            recompiled := recompiled + [source.source];
            results := results + [SourceResult(source, entry.rules, true)];
            cached := cached + [source.source];
          case Failure =>
            StopsAtTheFirstFailure(c, opts, jobs, 0, i);
            return Threw(i);
        }
        i := i + 1;
      }
      StopsAtTheFirstFailure(c, opts, jobs, 0, i);
      return Compiled(results, recompiled, cached, saved);
    }

    method ClearCache()
      modifies storage
      ensures storage.cache == map[]
    {
      storage.Clear();
    }
  }

  // ---------------------------------------------------------------- histories

  /** What the outside world sees: a download of a source that was kept, or the cache being cleared. */
  datatype Deed = Downloaded(job: Job) | Cleared

  function Deeds(cache: Cache, opts: Settings, jobs: seq<Job>, n: nat): seq<Deed>
    requires n <= |jobs|
  {
    if n == 0 then []
    else Deeds(cache, opts, jobs, n - 1)
         + (if VerdictAt(cache, opts, jobs, n - 1).Fresh? then [Downloaded(jobs[n - 1])] else [])
  }

  function DeedsOf(cache: Cache, use: Use): seq<Deed> {
    match use
    case Clear => [Cleared]
    case Compile(opts, jobs) => Deeds(cache, opts, jobs, StopsAt(cache, opts, jobs, 0))
  }

  function History(cache: Cache, uses: seq<Use>): seq<Deed>
    decreases |uses|
  {
    if uses == [] then [] else DeedsOf(cache, uses[0]) + History(CacheAfter(cache, uses[0]), uses[1..])
  }

  /** The latest download for a source since the last clear, told apart by what the source is, not by its key. */
  function LatestDownload(log: seq<Deed>, s: Source): (latest: Option<Job>)
    ensures latest.Some? ==> Downloaded(latest.value) in log && SameIdentity(latest.value.source, s)
    decreases |log|
  {
    if log == [] then None
    else match log[|log| - 1]
      case Cleared => None
      case Downloaded(job) => if SameIdentity(job.source, s) then Some(job) else LatestDownload(log[..|log| - 1], s)
  }

  /** The entry that a download leaves in the cache. */
  ghost predicate EntryOf(entry: Option<Entry>, latest: Option<Job>) {
    match latest
    case None => entry == None
    case Some(job) =>
      && job.download.Some?
      && entry == Some(Entry(job.source.source, job.contentHash, job.download.value, job.storedAt))
  }

  ghost predicate NamesFollow(cache: Cache, log: seq<Deed>) {
    forall s: Source {:trigger Key(s)} :: WellNamed(s) ==> EntryOf(Get(cache, Key(s)), LatestDownload(log, s))
  }

  predicate AllWellNamed(jobs: seq<Job>) {
    forall job <- jobs :: WellNamed(job.source)
  }

  predicate UsesWellNamed(uses: seq<Use>) {
    forall use <- uses :: use.Compile? ==> AllWellNamed(use.jobs)
  }

  lemma StoredFollows(cache: Cache, opts: Settings, log: seq<Deed>, job: Job)
    requires NamesFollow(cache, log) && WellNamed(job.source)
    ensures NamesFollow(Stored(cache, opts, job),
                        log + (if Serve(cache, opts, job).Fresh? then [Downloaded(job)] else []))
  {
    if Serve(cache, opts, job).Fresh? {
      var log' := log + [Downloaded(job)];
      assert log'[..|log'| - 1] == log;
      forall s: Source | WellNamed(s)
        ensures EntryOf(Get(Stored(cache, opts, job), Key(s)), LatestDownload(log', s))
      {
        KeyIsInjective(job.source, s);
      }
    } else {
      assert log + [] == log;
    }
  }

  lemma {:induction false} LoopFollows(cache: Cache, opts: Settings, log: seq<Deed>, jobs: seq<Job>, n: nat)
    requires NamesFollow(cache, log) && AllWellNamed(jobs) && n <= |jobs|
    ensures NamesFollow(CacheAt(cache, opts, jobs, n), log + Deeds(cache, opts, jobs, n))
    decreases n
  {
    if n == 0 {
      assert log + [] == log;
    } else {
      var last := if VerdictAt(cache, opts, jobs, n - 1).Fresh? then [Downloaded(jobs[n - 1])] else [];
      assert log + Deeds(cache, opts, jobs, n) == (log + Deeds(cache, opts, jobs, n - 1)) + last;
      LoopFollows(cache, opts, log, jobs, n - 1);
      assert jobs[n - 1] in jobs;
      StoredFollows(CacheAt(cache, opts, jobs, n - 1), opts, log + Deeds(cache, opts, jobs, n - 1), jobs[n - 1]);
    }
  }

  lemma {:induction false} HistoryFollows(cache: Cache, log: seq<Deed>, uses: seq<Use>)
    requires NamesFollow(cache, log) && UsesWellNamed(uses)
    ensures NamesFollow(CacheAfterAll(cache, uses), log + History(cache, uses))
    decreases |uses|
  {
    if uses == [] {
      assert log + [] == log;
    } else {
      var use := uses[0];
      assert use in uses;
      var log' := log + DeedsOf(cache, use);
      if use.Compile? {
        LoopFollows(cache, use.opts, log, use.jobs, StopsAt(cache, use.opts, use.jobs, 0));
      } else {
        assert log'[|log'| - 1] == Cleared;
      }
      HistoryFollows(CacheAfter(cache, use), log', uses[1..]);
      assert log + History(cache, uses) == log' + History(CacheAfter(cache, use), uses[1..]);
    }
  }

  /**
   * How a source is served when d is its latest download: from the cache exactly when d exists, is at most maxCacheAge
   * old and no refresh was asked for; else by its own download if that succeeds; else stale if d exists. Cached and
   * stale rules are d's, and only without d does a failing download make the compile throw.
   */
  ghost predicate ServedByHistory(v: Verdict, opts: Settings, job: Job, d: Option<Job>) {
    var usable := d.Some? && job.source.source !in opts.forceRefresh
                  && job.checkedAt - d.value.storedAt <= opts.maxCacheAge;
    && (d.Some? ==> d.value.download.Some? && d.value.source.source == job.source.source)
    && (v.Cached? <==> usable)
    && (v.Fresh? <==> !usable && job.download.Some?)
    && (v.Fallback? <==> !usable && job.download == None && d.Some?)
    && (v.Failure? <==> job.download == None && d == None)
    && (v.Cached? || v.Fallback? ==>
          v.entry.rules == d.value.download.value && v.entry.timestamp == d.value.storedAt)
    && (v.Fresh? ==> v.rules == job.download.value)
  }

  /**
   * Where every result comes from: from an empty cache, after any history of compiles, failures, refreshes, expiries
   * and clears, the n-th source of one more compile is served by the latest download of that very source since the
   * last clear, in the history or earlier in the same compile.
   */
  lemma Provenance(uses: seq<Use>, opts: Settings, jobs: seq<Job>, n: nat)
    requires UsesWellNamed(uses) && AllWellNamed(jobs) && n < |jobs|
    ensures var cache := CacheAfterAll(map[], uses);
            var log := History(map[], uses) + Deeds(cache, opts, jobs, n);
            ServedByHistory(VerdictAt(cache, opts, jobs, n), opts, jobs[n], LatestDownload(log, jobs[n].source))
  {
    var cache := CacheAfterAll(map[], uses);
    HistoryFollows(map[], [], uses);
    assert [] + History(map[], uses) == History(map[], uses);
    LoopFollows(cache, opts, History(map[], uses), jobs, n);
    assert jobs[n] in jobs;
    var here := CacheAt(cache, opts, jobs, n);
    var log := History(map[], uses) + Deeds(cache, opts, jobs, n);
    assert EntryOf(Get(here, Key(jobs[n].source)), LatestDownload(log, jobs[n].source));
  }

  /** The n-th source has a usable download in the history. */
  ghost predicate Usable(uses: seq<Use>, opts: Settings, jobs: seq<Job>, n: nat)
    requires n < |jobs|
  {
    var d := LatestBefore(uses, opts, jobs, n);
    d.Some? && jobs[n].source.source !in opts.forceRefresh && jobs[n].checkedAt - d.value.storedAt <= opts.maxCacheAge
  }

  /** The latest download of the n-th source, in the history or earlier in the same compile, since the last clear. */
  ghost function LatestBefore(uses: seq<Use>, opts: Settings, jobs: seq<Job>, n: nat): Option<Job>
    requires n < |jobs|
  {
    LatestDownload(History(map[], uses) + Deeds(CacheAfterAll(map[], uses), opts, jobs, n), jobs[n].source)
  }

  /** Its own download fails, but an older one is known. */
  ghost predicate StaleOnly(uses: seq<Use>, opts: Settings, jobs: seq<Job>, n: nat)
    requires n < |jobs|
  {
    !Usable(uses, opts, jobs, n) && jobs[n].download == None && LatestBefore(uses, opts, jobs, n).Some?
  }

  // ---------------------------------------------------------------- which sources are reported

  /** How many of the first n positions are marked. */
  function Marked(marks: seq<bool>, n: nat): nat
    requires n <= |marks|
  {
    if n == 0 then 0 else Marked(marks, n - 1) + (if marks[n - 1] then 1 else 0)
  }

  /** The list holds the names of the marked sources among the first n, each once and in order. */
  ghost predicate Lists(list: seq<string>, jobs: seq<Job>, marks: seq<bool>, n: nat)
    requires n <= |jobs| == |marks|
  {
    && |list| == Marked(marks, n)
    && forall i :: 0 <= i < n && marks[i] ==> Marked(marks, i) < |list| && list[Marked(marks, i)] == jobs[i].source.source
  }

  /** The names of the marked sources among the first n. */
  function Kept(jobs: seq<Job>, marks: seq<bool>, n: nat): seq<string>
    requires n <= |jobs| == |marks|
  {
    if n == 0 then []
    else Kept(jobs, marks, n - 1) + (if marks[n - 1] then [jobs[n - 1].source.source] else [])
  }

  lemma {:induction false} KeptLists(jobs: seq<Job>, marks: seq<bool>, n: nat)
    requires n <= |jobs| == |marks|
    ensures Lists(Kept(jobs, marks, n), jobs, marks, n)
  {
    if n > 0 {
      KeptLists(jobs, marks, n - 1);
    }
  }

  lemma {:induction false} NamedIsKept(cache: Cache, opts: Settings, jobs: seq<Job>, pick: Verdict -> bool,
                                      marks: seq<bool>, n: nat)
    requires n <= |jobs| == |marks|
    requires forall i :: 0 <= i < |jobs| ==> marks[i] == pick(VerdictAt(cache, opts, jobs, i))
    ensures Named(cache, opts, jobs, n, pick) == Kept(jobs, marks, n)
    decreases n
  {
    if n > 0 {
      NamedIsKept(cache, opts, jobs, pick, marks, n - 1);
    }
  }

  lemma NamedLists(cache: Cache, opts: Settings, jobs: seq<Job>, pick: Verdict -> bool, marks: seq<bool>)
    requires |jobs| == |marks|
    requires forall i :: 0 <= i < |jobs| ==> marks[i] == pick(VerdictAt(cache, opts, jobs, i))
    ensures Lists(Named(cache, opts, jobs, |jobs|, pick), jobs, marks, |jobs|)
  {
    NamedIsKept(cache, opts, jobs, pick, marks, |jobs|);
    KeptLists(jobs, marks, |jobs|);
  }

  /**
   * What a compile reports: as recompiled, exactly the sources that were no cache hit; as cached, exactly the hits and
   * the stale fallbacks; each in source order; and 500 ms saved for each hit.
   */
  lemma ReportIsExact(cache: Cache, opts: Settings, jobs: seq<Job>, hit: seq<bool>, missed: seq<bool>, served: seq<bool>)
    requires |hit| == |missed| == |served| == |jobs|
    requires forall i :: 0 <= i < |jobs| ==>
               var v := VerdictAt(cache, opts, jobs, i);
               hit[i] == v.Cached? && missed[i] == !v.Cached? && served[i] == (v.Cached? || v.Fallback?)
    ensures Lists(Named(cache, opts, jobs, |jobs|, Recompiles), jobs, missed, |jobs|)
    ensures Lists(Named(cache, opts, jobs, |jobs|, UsesCache), jobs, served, |jobs|)
    ensures |Named(cache, opts, jobs, |jobs|, Hits)| == Marked(hit, |jobs|)
  {
    NamedLists(cache, opts, jobs, Recompiles, missed);
    NamedLists(cache, opts, jobs, UsesCache, served);
    NamedLists(cache, opts, jobs, Hits, hit);
  }

  /**
   * The report in terms of the history: a source is listed as recompiled exactly when it has no usable download, as
   * cached exactly when it has one or when its own download fails but an older one exists, and each usable one saves
   * 500 ms.
   */
  lemma ReportFollowsHistory(uses: seq<Use>, opts: Settings, jobs: seq<Job>, usable: seq<bool>, unusable: seq<bool>,
                             served: seq<bool>)
    requires UsesWellNamed(uses) && AllWellNamed(jobs)
    requires |usable| == |unusable| == |served| == |jobs|
    requires forall i :: 0 <= i < |jobs| ==>
               && usable[i] == Usable(uses, opts, jobs, i) && unusable[i] == !Usable(uses, opts, jobs, i)
               && served[i] == (Usable(uses, opts, jobs, i) || StaleOnly(uses, opts, jobs, i))
    ensures var cache := CacheAfterAll(map[], uses);
            && Lists(Named(cache, opts, jobs, |jobs|, Recompiles), jobs, unusable, |jobs|)
            && Lists(Named(cache, opts, jobs, |jobs|, UsesCache), jobs, served, |jobs|)
            && |Named(cache, opts, jobs, |jobs|, Hits)| == Marked(usable, |jobs|)
  {
    var cache := CacheAfterAll(map[], uses);
    forall i | 0 <= i < |jobs|
      ensures var v := VerdictAt(cache, opts, jobs, i);
              (v.Cached? <==> Usable(uses, opts, jobs, i)) && (v.Fallback? <==> StaleOnly(uses, opts, jobs, i))
    {
      Provenance(uses, opts, jobs, i);
    }
    ReportIsExact(cache, opts, jobs, usable, unusable, served);
  }

  // ---------------------------------------------------------------- transparency

  /** The world serves fixed content: a download that succeeds returns the content of its source string. */
  ghost predicate Faithful(jobs: seq<Job>, content: string -> Rules) {
    forall job <- jobs :: job.download.Some? ==> job.download.value == content(job.source.source)
  }

  ghost predicate FaithfulUses(uses: seq<Use>, content: string -> Rules) {
    forall use <- uses :: use.Compile? ==> Faithful(use.jobs, content)
  }

  ghost predicate FaithfulLog(log: seq<Deed>, content: string -> Rules) {
    forall deed <- log :: deed.Downloaded? && deed.job.download.Some? ==>
                            deed.job.download.value == content(deed.job.source.source)
  }

  lemma {:induction false} DeedsAreFaithful(cache: Cache, opts: Settings, jobs: seq<Job>, n: nat,
                                            content: string -> Rules)
    requires n <= |jobs| && Faithful(jobs, content)
    ensures FaithfulLog(Deeds(cache, opts, jobs, n), content)
    decreases n
  {
    if n > 0 {
      DeedsAreFaithful(cache, opts, jobs, n - 1, content);
      assert jobs[n - 1] in jobs;
    }
  }

  lemma {:induction false} HistoryIsFaithful(cache: Cache, uses: seq<Use>, content: string -> Rules)
    requires FaithfulUses(uses, content)
    ensures FaithfulLog(History(cache, uses), content)
    decreases |uses|
  {
    if uses != [] {
      var use := uses[0];
      assert use in uses;
      if use.Compile? {
        DeedsAreFaithful(cache, use.opts, use.jobs, StopsAt(cache, use.opts, use.jobs, 0), content);
      }
      HistoryIsFaithful(CacheAfter(cache, use), uses[1..], content);
    }
  }

  /**
   * Transparency: if downloads that succeed are faithful to the source string, then after any history every source
   * that does not make the compile throw gets exactly the rules of a plain download, cached or not.
   */
  lemma CacheIsTransparent(uses: seq<Use>, opts: Settings, jobs: seq<Job>, n: nat, content: string -> Rules)
    requires UsesWellNamed(uses) && AllWellNamed(jobs) && n < |jobs|
    requires FaithfulUses(uses, content) && Faithful(jobs, content)
    requires !VerdictAt(CacheAfterAll(map[], uses), opts, jobs, n).Failure?
    ensures var v := VerdictAt(CacheAfterAll(map[], uses), opts, jobs, n);
            ResultOf(jobs[n].source, v) == SourceResult(jobs[n].source, content(jobs[n].source.source), !v.Fresh?)
  {
    var cache := CacheAfterAll(map[], uses);
    Provenance(uses, opts, jobs, n);
    HistoryIsFaithful(map[], uses, content);
    DeedsAreFaithful(cache, opts, jobs, n, content);
    assert jobs[n] in jobs;
    var log := History(map[], uses) + Deeds(cache, opts, jobs, n);
    var d := LatestDownload(log, jobs[n].source);
    if d.Some? {
      assert Downloaded(d.value) in log;
    }
  }

  /**
   * The whole compile: if it does not throw, it yields one result per configured source, in order, with exactly the
   * rules that plain downloading would give, marked as cached unless they were downloaded just now.
   */
  lemma {:induction false} CompileIsTransparent(uses: seq<Use>, opts: Settings, jobs: seq<Job>, n: nat,
                                                content: string -> Rules)
    requires UsesWellNamed(uses) && AllWellNamed(jobs) && n <= |jobs|
    requires FaithfulUses(uses, content) && Faithful(jobs, content)
    requires NoFailure(CacheAfterAll(map[], uses), opts, jobs, n)
    ensures var results := Results(CacheAfterAll(map[], uses), opts, jobs, n);
            |results| == n
            && forall i :: 0 <= i < n ==>
                 results[i] == SourceResult(jobs[i].source, content(jobs[i].source.source),
                                            !VerdictAt(CacheAfterAll(map[], uses), opts, jobs, i).Fresh?)
    decreases n
  {
    if n > 0 {
      CompileIsTransparent(uses, opts, jobs, n - 1, content);
      CacheIsTransparent(uses, opts, jobs, n - 1, content);
    }
  }
}
