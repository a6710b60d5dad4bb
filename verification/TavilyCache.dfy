/** The TTL + LRU cache of scripts/files/tavily_cache.py: an ordered dictionary, oldest entry first,
    whose reads refresh recency and whose expired entries are dropped on sight. */
module TavilyCache {
  import opened Options

  datatype Entry<V> = Entry(key: string, at: real, value: V)

  /** Time to live, entry limit, and limit on the serialised size of one value. */
  datatype Config = Config(ttl: real, maxEntries: nat, maxBytes: nat)

  datatype Stats = Stats(hits: nat, misses: nat, evictions: nat, skippedLarge: nat)

  /** `size` is the length of the serialised value, or None when it cannot be serialised. */
  datatype Op<V> = Get(key: string, now: real) | Put(key: string, value: V, size: Option<nat>, now: real)

  // ---- The ordered dictionary ----

  function Without<V>(es: seq<Entry<V>>, key: string): seq<Entry<V>> {
    if es == [] then [] else (if es[0].key == key then [] else [es[0]]) + Without(es[1..], key)
  }

  function Find<V>(es: seq<Entry<V>>, key: string): Option<Entry<V>> {
    if es == [] then None else if es[0].key == key then Some(es[0]) else Find(es[1..], key)
  }

  predicate Distinct<V>(es: seq<Entry<V>>) {
    forall i, j :: 0 <= i < j < |es| ==> es[i].key != es[j].key
  }

  /** Keep the newest `max` entries. */
  function Newest<V>(es: seq<Entry<V>>, max: nat): seq<Entry<V>> {
    if |es| <= max then es else es[|es| - max..]
  }

  // ---- One operation, on values ----

  predicate Fresh<V>(cfg: Config, e: Entry<V>, now: real) { now - e.at < cfg.ttl }

  predicate FitsIn(cfg: Config, size: Option<nat>) { size.Some? && size.value <= cfg.maxBytes }

  predicate Hits<V>(cfg: Config, es: seq<Entry<V>>, key: string, now: real) {
    var e := Find(es, key);
    e.Some? && Fresh(cfg, e.value, now)
  }

  function AfterGet<V>(cfg: Config, es: seq<Entry<V>>, key: string, now: real): seq<Entry<V>> {
    Without(es, key) + if Hits(cfg, es, key, now) then [Find(es, key).value] else []
  }

  function AfterPut<V>(cfg: Config, es: seq<Entry<V>>, key: string, value: V, size: Option<nat>, now: real)
    : seq<Entry<V>>
  {
    if FitsIn(cfg, size) then Newest(Without(es, key) + [Entry(key, now, value)], cfg.maxEntries) else es
  }

  function AfterOp<V>(cfg: Config, es: seq<Entry<V>>, op: Op<V>): seq<Entry<V>> {
    match op
    case Get(key, now) => AfterGet(cfg, es, key, now)
    case Put(key, value, size, now) => AfterPut(cfg, es, key, value, size, now)
  }

  /** The entries after a whole trace, from an empty cache. */
  function Run<V>(cfg: Config, ops: seq<Op<V>>): seq<Entry<V>> {
    if ops == [] then [] else AfterOp(cfg, Run(cfg, ops[..|ops| - 1]), ops[|ops| - 1])
  }

  // ---- The cache object ----

  class TTLCache<V(!new)> {
    const cfg: Config
    var entries: seq<Entry<V>>
    var stats: Stats
    ghost var history: seq<Op<V>>

    ghost predicate Valid()
      reads this
    {
      entries == Run(cfg, history)
    }

    constructor (cfg: Config)
      ensures Valid() && history == [] && this.cfg == cfg && stats == Stats(0, 0, 0, 0)
    {
      this.cfg := cfg;
      entries, history, stats := [], [], Stats(0, 0, 0, 0);
    }

    method Lookup(key: string, now: real) returns (r: Option<V>)
      requires Valid()
      modifies this
      ensures Valid() && history == old(history) + [Get(key, now)]
      ensures r.Some? <==> Hits(cfg, old(entries), key, now)
      ensures r.Some? ==> r.value == Find(old(entries), key).value.value
      ensures r == if Kept(cfg, old(history), key) && !IsOld(cfg, LastPut(cfg, old(history), key), now)
                   then Some(LastPut(cfg, old(history), key).value.value) else None
      ensures stats == if r.Some? then old(stats).(hits := old(stats).hits + 1)
                       else old(stats).(misses := old(stats).misses + 1)
    {
      var entry := Find(entries, key);
      HitsIff(cfg, history, key, now);
      HasIsKey(cfg, history, key);
      history := history + [Get(key, now)];
      assert history[..|history| - 1] == old(history);
      WithoutAbsent(entries, key);
      if entry.None? {
        stats := stats.(misses := stats.misses + 1);
        return None;
      }
      if now - entry.value.at >= cfg.ttl {
        entries := Without(entries, key);
        stats := stats.(misses := stats.misses + 1);
        return None;
      }
      entries := Without(entries, key) + [entry.value];
      stats := stats.(hits := stats.hits + 1);
      return Some(entry.value.value);
    }

    /** Entries go from the old end until the limit holds. */
    method EvictOldest()
      modifies this`entries, this`stats
      ensures entries == Newest(old(entries), cfg.maxEntries)
      ensures stats == old(stats).(evictions := old(stats).evictions + |old(entries)| - |entries|)
    {
      ghost var grown, cut := entries, 0;
      while |entries| > cfg.maxEntries
        invariant cut <= |grown| && entries == grown[cut..]
        invariant cut > 0 ==> |grown| - cut >= cfg.maxEntries
        invariant stats == old(stats).(evictions := old(stats).evictions + cut)
      {
        entries := entries[1..];
        stats := stats.(evictions := stats.evictions + 1);
        cut := cut + 1;
      }
    }

    method Store(key: string, value: V, size: Option<nat>, now: real) returns (stored: bool)
      requires Valid()
      modifies this
      ensures Valid() && history == old(history) + [Put(key, value, size, now)]
      ensures stored <==> size.Some? && size.value <= cfg.maxBytes
      ensures var grown := Without(old(entries), key) + [Entry(key, now, value)];
              stats == if stored then old(stats).(evictions := old(stats).evictions + |grown| - |entries|)
                       else if size.Some? then old(stats).(skippedLarge := old(stats).skippedLarge + 1)
                       else old(stats)
    {
      history := history + [Put(key, value, size, now)];
      assert history[..|history| - 1] == old(history);
      if size.None? {
        return false;
      }
      if size.value > cfg.maxBytes {
        stats := stats.(skippedLarge := stats.skippedLarge + 1);
        return false;
      }
      entries := Without(entries, key) + [Entry(key, now, value)];
      EvictOldest();
      return true;
    }
  }

  // ---- Dictionary lemmas ----

  lemma {:induction false} WithoutAbsent<V(!new)>(es: seq<Entry<V>>, key: string)
    ensures Find(es, key).None? ==> Without(es, key) == es
  {
    if es != [] {
      WithoutAbsent(es[1..], key);
      assert [es[0]] + es[1..] == es;
    }
  }

  /** Removing a key keeps the order of the others and nothing else. */
  lemma {:induction false} WithoutIs<V(!new)>(es: seq<Entry<V>>, key: string)
    requires Distinct(es)
    ensures Distinct(Without(es, key))
    ensures forall e :: e in Without(es, key) <==> e in es && e.key != key
    ensures |Without(es, key)| == |es| - if Find(es, key).Some? then 1 else 0
    ensures Find(es, key).Some? <==> exists e :: e in es && e.key == key
    ensures Find(es, key).Some? ==> Find(es, key).value in es && Find(es, key).value.key == key
  {
    if es != [] {
      WithoutIs(es[1..], key);
      var w := Without(es[1..], key);
      if es[0].key != key {
        forall i, j | 0 <= i < j < |[es[0]] + w| ensures ([es[0]] + w)[i].key != ([es[0]] + w)[j].key {
          if i == 0 { assert w[j - 1] in es[1..]; }
        }
      } else {
        assert forall e :: e in es[1..] ==> e.key != key;
      }
    }
  }

  lemma {:induction false} FindUnique<V(!new)>(es: seq<Entry<V>>, e: Entry<V>)
    requires Distinct(es) && e in es
    ensures Find(es, e.key) == Some(e)
  {
    if es[0] != e {
      assert e in es[1..];
      FindUnique(es[1..], e);
      var i :| 1 <= i < |es| && es[i] == e;
      assert es[0].key != es[i].key;
    }
  }

  lemma DistinctPush<V(!new)>(es: seq<Entry<V>>, e: Entry<V>)
    requires Distinct(es)
    ensures Distinct(Without(es, e.key) + [e])
  {
    WithoutIs(es, e.key);
    var w := Without(es, e.key);
    forall i | 0 <= i < |w| ensures w[i].key != e.key { assert w[i] in w; }
  }

  // ---- Against the history ----

  /** The latest accepted put of a key, as the entry it wrote. */
  function LastPut<V>(cfg: Config, ops: seq<Op<V>>, key: string): Option<Entry<V>> {
    if ops == [] then None
    else
      var op := ops[|ops| - 1];
      if op.Put? && op.key == key && FitsIn(cfg, op.size) then Some(Entry(key, op.now, op.value))
      else LastPut(cfg, ops[..|ops| - 1], key)
  }

  /** The position in the trace, counted from 1, at which a key was last stored or hit. */
  function LastTouch<V>(cfg: Config, ops: seq<Op<V>>, key: string): nat {
    if ops == [] then 0
    else
      var op, before := ops[|ops| - 1], ops[..|ops| - 1];
      if op.key == key && (if op.Put? then FitsIn(cfg, op.size) else Hits(cfg, Run(cfg, before), key, op.now))
      then |ops| else LastTouch(cfg, before, key)
  }

  ghost predicate ByRecency<V>(cfg: Config, ops: seq<Op<V>>, es: seq<Entry<V>>) {
    forall i, j :: 0 <= i < j < |es| ==> LastTouch(cfg, ops, es[i].key) < LastTouch(cfg, ops, es[j].key)
  }

  /** On every trace keys are distinct and the limit holds. */
  lemma {:induction false} TraceKeepsLimit<V(!new)>(cfg: Config, ops: seq<Op<V>>)
    ensures Distinct(Run(cfg, ops)) && |Run(cfg, ops)| <= cfg.maxEntries
    decreases |ops|
  {
    if ops != [] {
      var op, es := ops[|ops| - 1], Run(cfg, ops[..|ops| - 1]);
      TraceKeepsLimit(cfg, ops[..|ops| - 1]);
      WithoutIs(es, op.key);
      if op.Put? {
        DistinctPush(es, Entry(op.key, op.now, op.value));
      } else if Hits(cfg, es, op.key, op.now) {
        DistinctPush(es, Find(es, op.key).value);
      }
    }
  }

  /** Every entry is the latest accepted put of its key. */
  lemma {:induction false} EntriesAreLatest<V(!new)>(cfg: Config, ops: seq<Op<V>>)
    ensures forall e :: e in Run(cfg, ops) ==> LastPut(cfg, ops, e.key) == Some(e)
    decreases |ops|
  {
    if ops != [] {
      var op, es := ops[|ops| - 1], Run(cfg, ops[..|ops| - 1]);
      EntriesAreLatest(cfg, ops[..|ops| - 1]);
      TraceKeepsLimit(cfg, ops[..|ops| - 1]);
      WithoutIs(es, op.key);
      forall e | e in Run(cfg, ops) ensures LastPut(cfg, ops, e.key) == Some(e) {
        if e.key != op.key { assert e in es; }
      }
    }
  }

  lemma RefusedPutKeepsRecency<V(!new)>(cfg: Config, ops: seq<Op<V>>, es: seq<Entry<V>>)
    requires ops != [] && ByRecency(cfg, ops[..|ops| - 1], es)
    requires var op := ops[|ops| - 1]; op.Put? && !FitsIn(cfg, op.size)
    ensures ByRecency(cfg, ops, es)
  {
    var before := ops[..|ops| - 1];
    forall i, j | 0 <= i < j < |es| ensures LastTouch(cfg, ops, es[i].key) < LastTouch(cfg, ops, es[j].key) {
      assert LastTouch(cfg, before, es[i].key) < LastTouch(cfg, before, es[j].key);
    }
  }

  lemma {:induction false} LastTouchIsPast<V(!new)>(cfg: Config, ops: seq<Op<V>>, key: string)
    ensures LastTouch(cfg, ops, key) <= |ops|
    decreases |ops|
  {
    if ops != [] { LastTouchIsPast(cfg, ops[..|ops| - 1], key); }
  }

  /** Entries are ordered by last touch. */
  lemma {:induction false} TraceKeepsRecency<V(!new)>(cfg: Config, ops: seq<Op<V>>)
    ensures ByRecency(cfg, ops, Run(cfg, ops))
    decreases |ops|
  {
    if ops != [] {
      var before, op := ops[..|ops| - 1], ops[|ops| - 1];
      var es := Run(cfg, before);
      TraceKeepsRecency(cfg, before);
      TraceKeepsLimit(cfg, before);
      WithoutIs(es, op.key);
      forall key { LastTouchIsPast(cfg, before, key); }
      if op.Get? || FitsIn(cfg, op.size) {
        KeepsRecency(cfg, ops, es, op.key);
        TouchedIsNewest(cfg, ops, before, Without(es, op.key));
      } else {
        RefusedPutKeepsRecency(cfg, ops, es);
      }
    }
  }

  /** The key touched by the last operation is newer than every other. */
  lemma TouchedIsNewest<V(!new)>(cfg: Config, ops: seq<Op<V>>, before: seq<Op<V>>, w: seq<Entry<V>>)
    requires ops != [] && before == ops[..|ops| - 1] && ByRecency(cfg, ops, w)
    requires forall key :: LastTouch(cfg, before, key) <= |before|
    requires forall e :: e in w ==> e.key != ops[|ops| - 1].key
    ensures forall e: Entry<V> :: e.key == ops[|ops| - 1].key && LastTouch(cfg, ops, e.key) == |ops|
                                  ==> ByRecency(cfg, ops, w + [e])
  {
    forall i | 0 <= i < |w| ensures LastTouch(cfg, ops, w[i].key) < |ops| {
      assert w[i] in w;
      assert LastTouch(cfg, before, w[i].key) <= |before|;
    }
  }

  /** Other keys keep their last touch, and removing one keeps the rest in order. */
  lemma KeepsRecency<V(!new)>(cfg: Config, ops: seq<Op<V>>, es: seq<Entry<V>>, key: string)
    requires ops != [] && ops[|ops| - 1].key == key
    requires Distinct(es) && ByRecency(cfg, ops[..|ops| - 1], es)
    ensures ByRecency(cfg, ops, Without(es, key))
    ensures forall e :: e in Without(es, key)
                        ==> LastTouch(cfg, ops, e.key) == LastTouch(cfg, ops[..|ops| - 1], e.key)
  {
    WithoutIs(es, key);
    WithoutOrder(cfg, ops[..|ops| - 1], es, key);
    var w := Without(es, key);
    forall e | e in w ensures LastTouch(cfg, ops, e.key) == LastTouch(cfg, ops[..|ops| - 1], e.key) {
      assert e.key != key;
    }
    forall i, j | 0 <= i < j < |w| ensures LastTouch(cfg, ops, w[i].key) < LastTouch(cfg, ops, w[j].key) {
      assert w[i] in w && w[j] in w;
    }
  }

  lemma {:induction false} WithoutOrder<V(!new)>(cfg: Config, ops: seq<Op<V>>, es: seq<Entry<V>>, key: string)
    requires Distinct(es) && ByRecency(cfg, ops, es)
    ensures ByRecency(cfg, ops, Without(es, key))
  {
    if es != [] {
      WithoutOrder(cfg, ops, es[1..], key);
      WithoutIs(es[1..], key);
      if es[0].key != key { OlderInFront(cfg, ops, es, Without(es[1..], key)); }
    }
  }

  lemma OlderInFront<V(!new)>(cfg: Config, ops: seq<Op<V>>, es: seq<Entry<V>>, w: seq<Entry<V>>)
    requires es != [] && ByRecency(cfg, ops, es) && ByRecency(cfg, ops, w)
    requires forall e :: e in w ==> e in es[1..]
    ensures ByRecency(cfg, ops, [es[0]] + w)
  {
    forall j | 0 <= j < |w| ensures LastTouch(cfg, ops, es[0].key) < LastTouch(cfg, ops, w[j].key) {
      assert w[j] in w;
      var i :| 0 <= i < |es[1..]| && es[1..][i] == w[j];
      assert es[i + 1] == w[j];
    }
  }

  /** A hit returns the value of the latest accepted put of that key, and that put is younger than the
      time to live. */
  lemma HitIsLatestPut<V(!new)>(cfg: Config, ops: seq<Op<V>>, key: string, now: real)
    requires Hits(cfg, Run(cfg, ops), key, now)
    ensures LastPut(cfg, ops, key) == Find(Run(cfg, ops), key)
    ensures now - LastPut(cfg, ops, key).value.at < cfg.ttl
  {
    TraceKeepsLimit(cfg, ops);
    EntriesAreLatest(cfg, ops);
    WithoutIs(Run(cfg, ops), key);
  }

  ghost function Keys<V>(es: seq<Entry<V>>): set<string> {
    set e | e in es :: e.key
  }

  lemma KeysCons<V(!new)>(es: seq<Entry<V>>)
    requires es != []
    ensures Keys(es) == {es[0].key} + Keys(es[1..])
  {
    assert es == [es[0]] + es[1..];
  }

  lemma FirstKeyIsNew<V(!new)>(es: seq<Entry<V>>)
    requires es != [] && Distinct(es)
    ensures es[0].key !in Keys(es[1..]) && Distinct(es[1..])
  {
    forall e | e in es[1..] ensures e.key != es[0].key {
      var i :| 0 <= i < |es[1..]| && es[1..][i] == e;
      assert es[i + 1] == e;
    }
  }

  lemma {:induction false} KeyCount<V(!new)>(es: seq<Entry<V>>)
    requires Distinct(es)
    ensures |Keys(es)| == |es|
  {
    if es == [] {
      assert Keys(es) == {};
    } else {
      FirstKeyIsNew(es);
      KeyCount(es[1..]);
      KeysCons(es);
    }
  }

  /** Eviction is least-recently-used: a key lost to a put has at least `maxEntries` distinct other keys
      touched after its own last touch. */
  lemma EvictedIsColdest<V(!new)>(cfg: Config, ops: seq<Op<V>>, key: string)
    requires ops != [] && ops[|ops| - 1].Put? && ops[|ops| - 1].key != key
    requires Find(Run(cfg, ops[..|ops| - 1]), key).Some? && Find(Run(cfg, ops), key).None?
    ensures var kept := Keys(Run(cfg, ops));
            |kept| == cfg.maxEntries && key !in kept
            && forall k :: k in kept ==> LastTouch(cfg, ops, k) > LastTouch(cfg, ops, key)
  {
    var before, op := ops[..|ops| - 1], ops[|ops| - 1];
    var es := Run(cfg, before);
    TraceKeepsLimit(cfg, before);
    TraceKeepsRecency(cfg, before);
    TraceKeepsLimit(cfg, ops);
    KeyCount(Run(cfg, ops));
    WithoutIs(es, key);
    WithoutIs(es, op.key);
    WithoutIs(Run(cfg, ops), key);
    KeepsRecency(cfg, ops, es, op.key);
    forall k { LastTouchIsPast(cfg, before, k); }
    TouchedIsNewest(cfg, ops, before, Without(es, op.key));
    OlderThanKept(cfg, ops, Without(es, op.key), Entry(op.key, op.now, op.value), Find(es, key).value);
  }

  lemma OlderThanKept<V(!new)>(cfg: Config, ops: seq<Op<V>>, w: seq<Entry<V>>, e: Entry<V>, lost: Entry<V>)
    requires ByRecency(cfg, ops, w + [e])
    requires lost in w && lost !in Newest(w + [e], cfg.maxEntries)
    ensures |Newest(w + [e], cfg.maxEntries)| == cfg.maxEntries
    ensures forall k :: k in Newest(w + [e], cfg.maxEntries)
                        ==> LastTouch(cfg, ops, k.key) > LastTouch(cfg, ops, lost.key)
  {
    var grown, kept := w + [e], Newest(w + [e], cfg.maxEntries);
    var i :| 0 <= i < |w| && w[i] == lost;
    assert grown[i] == lost;
    var cut := |grown| - |kept|;
    assert forall x :: cut <= x < |grown| ==> grown[x] == kept[x - cut];
    forall k | k in kept ensures LastTouch(cfg, ops, k.key) > LastTouch(cfg, ops, lost.key) {
      var j :| 0 <= j < |kept| && kept[j] == k;
      assert grown[cut + j] == k;
    }
  }

  // ---- When an entry is still there, told from the trace alone ----

  /** A get found the latest accepted put of the key expired. */
  predicate Lapsed<V>(cfg: Config, ops: seq<Op<V>>, key: string) {
    if ops == [] then false
    else
      var op, before := ops[|ops| - 1], ops[..|ops| - 1];
      if op.key != key then Lapsed(cfg, before, key)
      else if op.Put? then !FitsIn(cfg, op.size) && Lapsed(cfg, before, key)
      else Lapsed(cfg, before, key) || IsOld(cfg, LastPut(cfg, before, key), op.now)
  }

  predicate IsOld<V>(cfg: Config, put: Option<Entry<V>>, now: real) { put.Some? && now - put.value.at >= cfg.ttl }

  function Named<V>(ops: seq<Op<V>>): set<string> { set i | 0 <= i < |ops| :: ops[i].key }

  /** The key was put, no get found that put expired, and at no moment since the key was last touched were
      as many other keys as the limit touched later and not expired. */
  ghost predicate Kept<V(!new)>(cfg: Config, ops: seq<Op<V>>, key: string)
    decreases |ops|, 3
  {
    && LastPut(cfg, ops, key).Some? && !Lapsed(cfg, ops, key)
    && forall j :: TouchAt(cfg, ops, key) <= j <= |ops| ==> HasRoom(cfg, ops, j, key)
  }

  ghost predicate HasRoom<V(!new)>(cfg: Config, ops: seq<Op<V>>, j: nat, key: string)
    requires j <= |ops|
    decreases |ops|, 2
  {
    |Newer(cfg, ops[..j], key)| < cfg.maxEntries
  }

  /** The other keys touched after this one whose puts no get found expired. */
  ghost function Newer<V(!new)>(cfg: Config, ops: seq<Op<V>>, key: string): set<string>
    decreases |ops|, 1
  {
    set x | x in Named(ops) && x != key && TouchAt(cfg, ops, x) > TouchAt(cfg, ops, key) && !Lapsed(cfg, ops, x)
  }

  /** The position, from 1, of the last operation that touched the key: an accepted put, or a get that came
      while its put was kept and not yet expired. */
  ghost function TouchAt<V(!new)>(cfg: Config, ops: seq<Op<V>>, key: string): nat
    decreases |ops|, 0
  {
    if ops == [] then 0
    else if Touches(cfg, ops[..|ops| - 1], ops[|ops| - 1], key) then |ops|
    else TouchAt(cfg, ops[..|ops| - 1], key)
  }

  ghost predicate Touches<V(!new)>(cfg: Config, before: seq<Op<V>>, op: Op<V>, key: string)
    decreases |before|, 4
  {
    op.key == key
    && if op.Put? then FitsIn(cfg, op.size)
       else Kept(cfg, before, key) && !IsOld(cfg, LastPut(cfg, before, key), op.now)
  }

  predicate Has<V>(cfg: Config, ops: seq<Op<V>>, key: string) { Find(Run(cfg, ops), key).Some? }

  lemma HasIsKey<V(!new)>(cfg: Config, ops: seq<Op<V>>, key: string)
    ensures Has(cfg, ops, key) <==> key in Keys(Run(cfg, ops))
    ensures Has(cfg, ops, key) ==> LastPut(cfg, ops, key) == Find(Run(cfg, ops), key)
  {
    TraceKeepsLimit(cfg, ops);
    EntriesAreLatest(cfg, ops);
    WithoutIs(Run(cfg, ops), key);
  }

  lemma {:induction false} TouchedWasPut<V(!new)>(cfg: Config, ops: seq<Op<V>>, key: string)
    ensures TouchAt(cfg, ops, key) <= |ops|
    ensures TouchAt(cfg, ops, key) > 0 ==> LastPut(cfg, ops, key).Some? && key in Named(ops)
    decreases |ops|
  {
    if ops != [] {
      var before, op := ops[..|ops| - 1], ops[|ops| - 1];
      TouchedWasPut(cfg, before, key);
      assert op.key in Named(ops);
      assert LastPut(cfg, before, key).Some? ==> LastPut(cfg, ops, key).Some?;
      if Touches(cfg, before, op, key) && op.Get? { assert Kept(cfg, before, key); }
    }
  }

  lemma {:induction false} TouchOfPrefix<V(!new)>(cfg: Config, ops: seq<Op<V>>, j: nat, key: string)
    requires TouchAt(cfg, ops, key) <= j <= |ops|
    ensures TouchAt(cfg, ops[..j], key) == TouchAt(cfg, ops, key)
    decreases |ops|
  {
    if j == |ops| {
      assert ops[..j] == ops;
    } else {
      var before := ops[..|ops| - 1];
      TouchOfPrefix(cfg, before, j, key);
      assert before[..j] == ops[..j];
    }
  }

  /** While a key is kept, so is every key touched after it that did not lapse. */
  lemma NewerIsKept<V(!new)>(cfg: Config, ops: seq<Op<V>>, key: string, x: string)
    requires Kept(cfg, ops, key) && !Lapsed(cfg, ops, x)
    requires TouchAt(cfg, ops, x) > TouchAt(cfg, ops, key)
    ensures Kept(cfg, ops, x)
  {
    TouchedWasPut(cfg, ops, x);
    forall j | TouchAt(cfg, ops, x) <= j <= |ops| ensures HasRoom(cfg, ops, j, x) {
      TouchOfPrefix(cfg, ops, j, x);
      TouchOfPrefix(cfg, ops, j, key);
      assert HasRoom(cfg, ops, j, key);
      FewerNewer(Newer(cfg, ops[..j], x), Newer(cfg, ops[..j], key));
    }
  }

  lemma FewerNewer(a: set<string>, b: set<string>)
    requires a <= b
    ensures |a| <= |b|
  {
    assert b == a + (b - a);
  }

  /** What a step that does not touch a key leaves of its being kept. */
  lemma KeptStep<V(!new)>(cfg: Config, ops: seq<Op<V>>, key: string)
    requires ops != [] && !Touches(cfg, ops[..|ops| - 1], ops[|ops| - 1], key)
    ensures Kept(cfg, ops, key) <==>
              Kept(cfg, ops[..|ops| - 1], key) && !Lapsed(cfg, ops, key) && HasRoom(cfg, ops, |ops|, key)
  {
    var before := ops[..|ops| - 1];
    TouchedWasPut(cfg, before, key);
    forall j: nat | j <= |before| ensures HasRoom(cfg, ops, j, key) <==> HasRoom(cfg, before, j, key) {
      assert before[..j] == ops[..j];
    }
    var at := TouchAt(cfg, before, key);
    assert TouchAt(cfg, ops, key) == at <= |before|;
    assert LastPut(cfg, ops, key) == LastPut(cfg, before, key);
    assert Lapsed(cfg, before, key) ==> Lapsed(cfg, ops, key);
    if Kept(cfg, ops, key) {
      forall j | at <= j <= |before| ensures HasRoom(cfg, before, j, key) { assert HasRoom(cfg, ops, j, key); }
    }
  }

  lemma KeptAtTouch<V(!new)>(cfg: Config, ops: seq<Op<V>>, key: string)
    requires ops != [] && Touches(cfg, ops[..|ops| - 1], ops[|ops| - 1], key)
    ensures Kept(cfg, ops, key) <==> cfg.maxEntries > 0
  {
    var before := ops[..|ops| - 1];
    forall x | x in Named(ops) { TouchedWasPut(cfg, ops, x); }
    assert ops[..|ops|] == ops && Newer(cfg, ops, key) == {};
    assert HasRoom(cfg, ops, |ops|, key) <==> cfg.maxEntries > 0;
  }

  // ---- The entries of one more operation ----

  lemma PutMembers<V(!new)>(es: seq<Entry<V>>, e: Entry<V>, max: nat)
    requires Distinct(es)
    ensures var t := Newest(Without(es, e.key) + [e], max);
            && (Find(t, e.key).Some? <==> max > 0)
            && forall key :: key != e.key && Find(t, key).Some? ==> Find(es, key).Some?
  {
    WithoutIs(es, e.key);
    DistinctPush(es, e);
    var grown := Without(es, e.key) + [e];
    var t := Newest(grown, max);
    NewestDistinct(grown, max);
    forall key ensures Find(t, key).Some? <==> exists x :: x in t && x.key == key { WithoutIs(t, key); }
    forall key ensures Find(es, key).Some? <==> exists x :: x in es && x.key == key { WithoutIs(es, key); }
    if max > 0 { assert t[|t| - 1] == e; }
    forall x | x in t ensures x in grown { }
  }

  lemma NewestDistinct<V(!new)>(es: seq<Entry<V>>, max: nat)
    requires Distinct(es)
    ensures Distinct(Newest(es, max))
  {
  }

  lemma GetMembers<V(!new)>(cfg: Config, es: seq<Entry<V>>, key: string, now: real)
    requires Distinct(es)
    ensures var t := AfterGet(cfg, es, key, now);
            && (Find(t, key).Some? <==> Hits(cfg, es, key, now))
            && forall x :: x != key ==> (Find(t, x).Some? <==> Find(es, x).Some?)
  {
    WithoutIs(es, key);
    if Hits(cfg, es, key, now) { DistinctPush(es, Find(es, key).value); }
    var t := AfterGet(cfg, es, key, now);
    forall x ensures Find(t, x).Some? <==> exists e :: e in t && e.key == x { WithoutIs(t, x); }
    forall x ensures Find(es, x).Some? <==> exists e :: e in es && e.key == x { WithoutIs(es, x); }
  }

  /** What one operation does to whether a key is there. */
  lemma HasStep<V(!new)>(cfg: Config, ops: seq<Op<V>>, key: string)
    requires ops != []
    ensures var (before, op) := (ops[..|ops| - 1], ops[|ops| - 1]);
            && (op.Get? && op.key != key ==> (Has(cfg, ops, key) <==> Has(cfg, before, key)))
            && (op.Get? && op.key == key ==>
                  (Has(cfg, ops, key) <==> Has(cfg, before, key) && !IsOld(cfg, LastPut(cfg, before, key), op.now)))
            && (op.Put? && !FitsIn(cfg, op.size) ==> (Has(cfg, ops, key) <==> Has(cfg, before, key)))
            && (op.Put? && FitsIn(cfg, op.size) && op.key == key ==> (Has(cfg, ops, key) <==> cfg.maxEntries > 0))
            && (op.Put? && FitsIn(cfg, op.size) && op.key != key ==> Has(cfg, ops, key) ==> Has(cfg, before, key))
  {
    var before, op := ops[..|ops| - 1], ops[|ops| - 1];
    TraceKeepsLimit(cfg, before);
    HasIsKey(cfg, before, key);
    if op.Get? {
      GetMembers(cfg, Run(cfg, before), op.key, op.now);
    } else if FitsIn(cfg, op.size) {
      PutMembers(Run(cfg, before), Entry(op.key, op.now, op.value), cfg.maxEntries);
    }
  }

  lemma {:induction false} PresentIsNotLapsed<V(!new)>(cfg: Config, ops: seq<Op<V>>, key: string)
    requires Has(cfg, ops, key)
    ensures !Lapsed(cfg, ops, key)
    decreases |ops|
  {
    if ops != [] {
      HasStep(cfg, ops, key);
      var op := ops[|ops| - 1];
      if !(op.Put? && FitsIn(cfg, op.size) && op.key == key) { PresentIsNotLapsed(cfg, ops[..|ops| - 1], key); }
    }
  }

  // ---- Being there is being kept ----

  /** Touched by the trace is touched in the run. */
  lemma {:induction false} TouchIs<V(!new)>(cfg: Config, ops: seq<Op<V>>, key: string)
    ensures TouchAt(cfg, ops, key) == LastTouch(cfg, ops, key)
    decreases |ops|, 0
  {
    if ops != [] {
      var before := ops[..|ops| - 1];
      TouchIs(cfg, before, key);
      StaysIff(cfg, before, key);
      HasIsKey(cfg, before, key);
    }
  }

  /** A key that is there leaves room: what is newer is there too, and there are no more than the limit. */
  lemma {:induction false} PresentHasRoom<V(!new)>(cfg: Config, ops: seq<Op<V>>, key: string)
    requires ops != [] && Has(cfg, ops, key) && Has(cfg, ops[..|ops| - 1], key)
    requires !Touches(cfg, ops[..|ops| - 1], ops[|ops| - 1], key)
    ensures HasRoom(cfg, ops, |ops|, key)
    decreases |ops|, 1
  {
    var there := Keys(Run(cfg, ops));
    forall x | x in Newer(cfg, ops, key) ensures x in there { NewerIsThere(cfg, ops, key, x); }
    HasIsKey(cfg, ops, key);
    TraceKeepsLimit(cfg, ops);
    KeyCount(Run(cfg, ops));
    FewerNewer(Newer(cfg, ops, key) + {key}, there);
    assert ops[..|ops|] == ops;
  }

  lemma {:induction false} NewerIsThere<V(!new)>(cfg: Config, ops: seq<Op<V>>, key: string, x: string)
    requires ops != [] && Has(cfg, ops, key) && Has(cfg, ops[..|ops| - 1], key)
    requires !Touches(cfg, ops[..|ops| - 1], ops[|ops| - 1], key) && x in Newer(cfg, ops, key)
    ensures x in Keys(Run(cfg, ops))
    decreases |ops|, 0
  {
    var before, op := ops[..|ops| - 1], ops[|ops| - 1];
    HasStep(cfg, ops, x);
    HasIsKey(cfg, ops, x);
    HasIsKey(cfg, ops, key);
    TraceKeepsLimit(cfg, ops);
    StaysIff(cfg, before, x);
    if !Touches(cfg, before, op, x) {
      StaysIff(cfg, before, key);
      NewerIsKept(cfg, before, key, x);
      if op.Put? && FitsIn(cfg, op.size) && !Has(cfg, ops, x) {
        EvictedIsColdest(cfg, ops, x);
        TouchIs(cfg, before, x);
        TouchIs(cfg, before, key);
      }
    }
  }

  /** The latest accepted put of a key is still in the cache exactly when the trace keeps it. */
  lemma {:induction false} StaysIff<V(!new)>(cfg: Config, ops: seq<Op<V>>, key: string)
    ensures Has(cfg, ops, key) <==> Kept(cfg, ops, key)
    decreases |ops|, 2
  {
    if ops != [] {
      var before, op := ops[..|ops| - 1], ops[|ops| - 1];
      StaysIff(cfg, before, key);
      HasStep(cfg, ops, key);
      if Touches(cfg, before, op, key) {
        KeptAtTouch(cfg, ops, key);
        TraceKeepsLimit(cfg, before);
        HasIsKey(cfg, before, key);
      } else {
        KeptStep(cfg, ops, key);
        if Has(cfg, ops, key) {
          PresentIsNotLapsed(cfg, ops, key);
          PresentHasRoom(cfg, ops, key);
        } else if Kept(cfg, ops, key) {
          LostHasNoRoom(cfg, ops, key);
        }
      }
    }
  }

  lemma {:induction false} LostHasNoRoom<V(!new)>(cfg: Config, ops: seq<Op<V>>, key: string)
    requires ops != [] && Has(cfg, ops[..|ops| - 1], key) && !Has(cfg, ops, key) && ops[|ops| - 1].key != key
    ensures !HasRoom(cfg, ops, |ops|, key)
    decreases |ops|, 1
  {
    HasStep(cfg, ops, key);
    EvictedIsColdest(cfg, ops, key);
    var kept := Keys(Run(cfg, ops));
    TouchIs(cfg, ops, key);
    forall x | x in kept ensures x in Newer(cfg, ops, key) {
      HasIsKey(cfg, ops, x);
      TouchIs(cfg, ops, x);
      TouchedWasPut(cfg, ops, x);
      PresentIsNotLapsed(cfg, ops, x);
    }
    FewerNewer(kept, Newer(cfg, ops, key));
    assert ops[..|ops|] == ops;
  }

  /** So a get hits exactly when the trace keeps the latest accepted put and that is younger than the time to
      live. */
  lemma HitsIff<V(!new)>(cfg: Config, ops: seq<Op<V>>, key: string, now: real)
    ensures Hits(cfg, Run(cfg, ops), key, now) <==>
              Kept(cfg, ops, key) && now - LastPut(cfg, ops, key).value.at < cfg.ttl
  {
    StaysIff(cfg, ops, key);
    HasIsKey(cfg, ops, key);
  }

  ghost function TouchedSince<V(!new)>(cfg: Config, ops: seq<Op<V>>, key: string): set<string> {
    set x | x in Named(ops) && x != key && TouchAt(cfg, ops, x) > TouchAt(cfg, ops, key)
  }

  lemma {:induction false} TouchGrows<V(!new)>(cfg: Config, ops: seq<Op<V>>, j: nat, key: string)
    requires j <= |ops|
    ensures TouchAt(cfg, ops[..j], key) <= TouchAt(cfg, ops, key)
    decreases |ops|
  {
    if j == |ops| {
      assert ops[..j] == ops;
    } else {
      var before := ops[..|ops| - 1];
      TouchGrows(cfg, before, j, key);
      TouchedWasPut(cfg, before, key);
      assert before[..j] == ops[..j];
    }
  }

  lemma NewerWasTouched<V(!new)>(cfg: Config, ops: seq<Op<V>>, j: nat, key: string)
    requires TouchAt(cfg, ops, key) <= j <= |ops|
    ensures Newer(cfg, ops[..j], key) <= TouchedSince(cfg, ops, key)
  {
    TouchOfPrefix(cfg, ops, j, key);
    forall x | x in Newer(cfg, ops[..j], key) ensures x in TouchedSince(cfg, ops, key) {
      TouchGrows(cfg, ops, j, x);
      TouchedWasPut(cfg, ops, x);
    }
  }

  /** A put that no get found expired stays while fewer other keys than the limit are touched after it. */
  lemma FewTouchedStays<V(!new)>(cfg: Config, ops: seq<Op<V>>, key: string)
    requires LastPut(cfg, ops, key).Some? && !Lapsed(cfg, ops, key)
    requires |TouchedSince(cfg, ops, key)| < cfg.maxEntries
    ensures Has(cfg, ops, key)
  {
    forall j | TouchAt(cfg, ops, key) <= j <= |ops| ensures HasRoom(cfg, ops, j, key) {
      NewerWasTouched(cfg, ops, j, key);
      FewerNewer(Newer(cfg, ops[..j], key), TouchedSince(cfg, ops, key));
    }
    StaysIff(cfg, ops, key);
  }

  /** And only then, in a trace in which no other key lapses. */
  lemma StaysIffFewTouched<V(!new)>(cfg: Config, ops: seq<Op<V>>, key: string)
    requires forall x :: x != key ==> !Lapsed(cfg, ops, x)
    ensures Has(cfg, ops, key) <==>
              LastPut(cfg, ops, key).Some? && !Lapsed(cfg, ops, key)
              && |TouchedSince(cfg, ops, key)| < cfg.maxEntries
  {
    StaysIff(cfg, ops, key);
    if Kept(cfg, ops, key) {
      TouchedWasPut(cfg, ops, key);
      assert HasRoom(cfg, ops, |ops|, key);
      assert ops[..|ops|] == ops && Newer(cfg, ops, key) == TouchedSince(cfg, ops, key);
    } else if LastPut(cfg, ops, key).Some? && !Lapsed(cfg, ops, key) && |TouchedSince(cfg, ops, key)| < cfg.maxEntries {
      FewTouchedStays(cfg, ops, key);
    }
  }

  lemma OneMoreOp<V(!new)>(cfg: Config, before: seq<Op<V>>, op: Op<V>, key: string)
    ensures Run(cfg, before + [op]) == AfterOp(cfg, Run(cfg, before), op)
    ensures LastTouch(cfg, before + [op], key)
            == if op.key == key
                  && (if op.Put? then FitsIn(cfg, op.size) else Hits(cfg, Run(cfg, before), key, op.now))
               then |before| + 1 else LastTouch(cfg, before, key)
    ensures Named(before + [op]) == Named(before) + {op.key}
  {
    assert (before + [op])[..|before|] == before;
    forall x | x in Named(before) + {op.key} ensures x in Named(before + [op]) {
      if x == op.key { assert (before + [op])[|before|].key == x; }
      else { var i :| 0 <= i < |before| && before[i].key == x; assert (before + [op])[i].key == x; }
    }
  }

  const TWO := Config(10.0, 2, 0)

  function PutTwo<V>(v: V): seq<Op<V>> { [] + [Put("a", v, Some(0), 0.0)] + [Put("b", v, Some(0), 0.0)] }

  function PutThree<V>(v: V): seq<Op<V>> { PutTwo(v) + [Get("b", 10.0)] + [Put("c", v, Some(0), 10.0)] }

  lemma AfterTwo<V(!new)>(v: V)
    ensures Run(TWO, PutTwo(v)) == [Entry("a", 0.0, v), Entry("b", 0.0, v)]
    ensures LastTouch(TWO, PutTwo(v), "a") == 1 && LastTouch(TWO, PutTwo(v), "b") == 2
    ensures Named(PutTwo(v)) == {"a", "b"}
  {
    var none: seq<Op<V>> := [];
    var (a, b) := (Put("a", v, Some(0), 0.0), Put("b", v, Some(0), 0.0));
    OneMoreOp(TWO, none, a, "a");
    OneMoreOp(TWO, none + [a], b, "a");
    OneMoreOp(TWO, none + [a], b, "b");
    var e: seq<Entry<V>> := [Entry("a", 0.0, v)];
    assert Run(TWO, none + [a]) == e;
    FirstEntry(Entry("a", 0.0, v), [], "b");
    assert e + [] == e;
  }

  lemma FirstEntry<V(!new)>(e: Entry<V>, es: seq<Entry<V>>, key: string)
    ensures Find([e] + es, key) == if e.key == key then Some(e) else Find(es, key)
    ensures Without([e] + es, key) == if e.key == key then Without(es, key) else [e] + Without(es, key)
  {
    assert ([e] + es)[1..] == es;
  }

  lemma AfterThree<V(!new)>(v: V)
    ensures Run(TWO, PutTwo(v) + [Get("b", 10.0)]) == [Entry("a", 0.0, v)]
    ensures LastTouch(TWO, PutTwo(v) + [Get("b", 10.0)], "a") == 1
    ensures LastTouch(TWO, PutTwo(v) + [Get("b", 10.0)], "b") == 2
    ensures Named(PutTwo(v) + [Get("b", 10.0)]) == {"a", "b"}
  {
    AfterTwo(v);
    OneMoreOp(TWO, PutTwo(v), Get("b", 10.0), "a");
    OneMoreOp(TWO, PutTwo(v), Get("b", 10.0), "b");
    var (a, b) := (Entry("a", 0.0, v), Entry("b", 0.0, v));
    FirstEntry(b, [], "b");
    FirstEntry(a, [b], "b");
    assert [a] + [b] == [a, b] && [b] + [] == [b] && [a] + [] == [a];
  }

  /** Expiry makes room: here "b" is found expired before "c" is put, and "a" stays in a cache of two although
      two other keys were touched after it. */
  lemma ExpiryMakesRoom<V(!new)>(v: V)
    ensures Has(TWO, PutThree(v), "a") && TouchedSince(TWO, PutThree(v), "a") == {"b", "c"}
    ensures |TouchedSince(TWO, PutThree(v), "a")| == TWO.maxEntries
  {
    var (three, c) := (PutTwo(v) + [Get("b", 10.0)], Put("c", v, Some(0), 10.0));
    AfterThree(v);
    forall key ensures TouchAt(TWO, PutThree(v), key) == LastTouch(TWO, PutThree(v), key) {
      TouchIs(TWO, PutThree(v), key);
    }
    OneMoreOp(TWO, three, c, "a");
    OneMoreOp(TWO, three, c, "b");
    OneMoreOp(TWO, three, c, "c");
    var e: seq<Entry<V>> := [Entry("a", 0.0, v)];
    FirstEntry(Entry("a", 0.0, v), [], "c");
    assert e + [] == e;
    assert Run(TWO, PutThree(v)) == e + [Entry("c", 10.0, v)];
  }

  // ---- A larger cache hits whenever a smaller one does ----

  /** a is what remains of b after leaving some entries out. */
  ghost predicate Sub<V>(a: seq<Entry<V>>, b: seq<Entry<V>>) {
    a == [] || (b != [] && if a[0] == b[0] then Sub(a[1..], b[1..]) else Sub(a, b[1..]))
  }

  lemma {:induction false} SubMembers<V(!new)>(a: seq<Entry<V>>, b: seq<Entry<V>>)
    requires Sub(a, b)
    ensures |a| <= |b| && forall e :: e in a ==> e in b
    ensures |a| == |b| ==> a == b
    decreases |b|
  {
    if a != [] {
      if a[0] == b[0] {
        SubMembers(a[1..], b[1..]);
        assert a == [a[0]] + a[1..] && b == [b[0]] + b[1..];
      } else {
        SubMembers(a, b[1..]);
      }
    }
  }

  lemma {:induction false} SubTail<V(!new)>(a: seq<Entry<V>>, b: seq<Entry<V>>)
    requires Sub(a, b) && a != []
    ensures Sub(a[1..], b)
    decreases |a|, |b|
  {
    if a[0] == b[0] {
      SubCons(a[1..], b);
    } else {
      SubTail(a, b[1..]);
      SubCons(a[1..], b);
    }
  }

  lemma {:induction false} SubCons<V(!new)>(a: seq<Entry<V>>, b: seq<Entry<V>>)
    requires b != [] && Sub(a, b[1..])
    ensures Sub(a, b)
    decreases |a|, |b|
  {
    if a != [] && a[0] == b[0] {
      SubTail(a, b[1..]);
    }
  }

  lemma {:induction false} SubPush<V(!new)>(a: seq<Entry<V>>, b: seq<Entry<V>>, x: Entry<V>)
    requires Sub(a, b)
    ensures Sub(a + [x], b + [x]) && Sub(a, b + [x])
    decreases |b|
  {
    if b == [] {
      assert a + [x] == [x] && b + [x] == [x];
    } else if a == [] {
      SubPush([], b[1..], x);
      assert (b + [x])[1..] == b[1..] + [x];
      assert [] + [x] == [x];
      SubCons([x], b + [x]);
    } else {
      assert (b + [x])[1..] == b[1..] + [x] && (a + [x])[1..] == a[1..] + [x];
      if a[0] == b[0] { SubPush(a[1..], b[1..], x); } else { SubPush(a, b[1..], x); }
    }
  }

  lemma {:induction false} SubWithout<V(!new)>(a: seq<Entry<V>>, b: seq<Entry<V>>, key: string)
    requires Sub(a, b)
    ensures Sub(Without(a, key), Without(b, key))
    decreases |b|
  {
    if a != [] {
      if a[0] == b[0] {
        SubWithout(a[1..], b[1..], key);
        var x, y := Without(a[1..], key), Without(b[1..], key);
        assert ([a[0]] + x)[1..] == x && ([a[0]] + y)[1..] == y;
        assert [] + x == x && [] + y == y;
      } else {
        SubWithout(a, b[1..], key);
        if b[0].key != key {
          assert Without(b, key)[1..] == Without(b[1..], key);
          SubCons(Without(a, key), Without(b, key));
        } else {
          assert Without(b, key) == Without(b[1..], key);
        }
      }
    }
  }

  /** How the caches with limits m and m + 1 stay related on one trace. */
  ghost predicate OneApart<V>(m: nat, a: seq<Entry<V>>, b: seq<Entry<V>>) {
    Sub(a, b) && |b| <= |a| + 1 && |a| <= m && |b| <= m + 1 && Distinct(a) && Distinct(b)
  }

  lemma PutKeepsOneApart<V(!new)>(m: nat, a: seq<Entry<V>>, b: seq<Entry<V>>, e: Entry<V>)
    requires OneApart(m, a, b)
    ensures OneApart(m, Newest(Without(a, e.key) + [e], m), Newest(Without(b, e.key) + [e], m + 1))
  {
    SubWithout(a, b, e.key);
    SubPush(Without(a, e.key), Without(b, e.key), e);
    SubMembers(a, b);
    SubMembers(Without(a, e.key), Without(b, e.key));
    WithoutIs(a, e.key);
    WithoutIs(b, e.key);
    DistinctPush(a, e);
    DistinctPush(b, e);
    TrimKeepsOneApart(m, Without(a, e.key) + [e], Without(b, e.key) + [e]);
  }

  lemma TrimKeepsOneApart<V(!new)>(m: nat, x: seq<Entry<V>>, y: seq<Entry<V>>)
    requires Sub(x, y) && |x| <= |y| <= |x| + 1 && |x| <= m + 1 && |y| <= m + 2 && Distinct(x) && Distinct(y)
    ensures OneApart(m, Newest(x, m), Newest(y, m + 1))
  {
    if |x| == m + 1 {
      SubTail(x, y);
      if |y| == m + 2 && x[0] != y[0] { SubTail(x, y[1..]); }
    }
  }

  lemma SubFinds<V(!new)>(a: seq<Entry<V>>, b: seq<Entry<V>>, key: string)
    requires Sub(a, b) && Distinct(a) && Distinct(b)
    ensures Find(a, key).Some? ==> Find(b, key) == Find(a, key)
  {
    SubMembers(a, b);
    WithoutIs(a, key);
    if Find(a, key).Some? { FindUnique(b, Find(a, key).value); }
  }

  lemma WithoutKeepsOneApart<V(!new)>(m: nat, a: seq<Entry<V>>, b: seq<Entry<V>>, key: string)
    requires OneApart(m, a, b)
    ensures OneApart(m, Without(a, key), Without(b, key))
  {
    SubWithout(a, b, key);
    SubFinds(a, b, key);
    SubMembers(a, b);
    SubMembers(Without(a, key), Without(b, key));
    WithoutIs(a, key);
    WithoutIs(b, key);
  }

  lemma MovedKeepsOneApart<V(!new)>(m: nat, a: seq<Entry<V>>, b: seq<Entry<V>>, e: Entry<V>)
    requires OneApart(m, a, b) && Find(b, e.key) == Some(e)
    ensures Find(a, e.key) == Some(e) ==> OneApart(m, Without(a, e.key) + [e], Without(b, e.key) + [e])
    ensures Find(a, e.key).None? ==> OneApart(m, Without(a, e.key), Without(b, e.key) + [e])
  {
    WithoutKeepsOneApart(m, a, b, e.key);
    SubPush(Without(a, e.key), Without(b, e.key), e);
    DistinctPush(a, e);
    DistinctPush(b, e);
    WithoutIs(a, e.key);
    WithoutIs(b, e.key);
    WithoutAbsent(a, e.key);
  }

  lemma GetKeepsOneApart<V(!new)>(cfg: Config, m: nat, a: seq<Entry<V>>, b: seq<Entry<V>>, key: string, now: real)
    requires OneApart(m, a, b)
    ensures OneApart(m, AfterGet(cfg, a, key, now), AfterGet(cfg, b, key, now))
    ensures Hits(cfg, a, key, now) ==> Hits(cfg, b, key, now) && Find(a, key) == Find(b, key)
  {
    SubFinds(a, b, key);
    WithoutKeepsOneApart(m, a, b, key);
    WithoutIs(b, key);
    if Hits(cfg, b, key, now) { MovedKeepsOneApart(m, a, b, Find(b, key).value); }
    assert Without(a, key) + [] == Without(a, key) && Without(b, key) + [] == Without(b, key);
  }

  lemma {:induction false} OneMoreEntry<V(!new)>(cfg: Config, ops: seq<Op<V>>)
    ensures OneApart(cfg.maxEntries, Run(cfg, ops), Run(cfg.(maxEntries := cfg.maxEntries + 1), ops))
    decreases |ops|
  {
    var big := cfg.(maxEntries := cfg.maxEntries + 1);
    if ops != [] {
      var before, op := ops[..|ops| - 1], ops[|ops| - 1];
      OneMoreEntry(cfg, before);
      StepKeepsOneApart(cfg, Run(cfg, before), Run(big, before), op);
    }
  }

  lemma StepKeepsOneApart<V(!new)>(cfg: Config, a: seq<Entry<V>>, b: seq<Entry<V>>, op: Op<V>)
    requires OneApart(cfg.maxEntries, a, b)
    ensures OneApart(cfg.maxEntries, AfterOp(cfg, a, op), AfterOp(cfg.(maxEntries := cfg.maxEntries + 1), b, op))
  {
    var big := cfg.(maxEntries := cfg.maxEntries + 1);
    if op.Get? {
      GetKeepsOneApart(cfg, cfg.maxEntries, a, b, op.key, op.now);
      assert AfterGet(big, b, op.key, op.now) == AfterGet(cfg, b, op.key, op.now);
    } else if FitsIn(cfg, op.size) {
      PutKeepsOneApart(cfg.maxEntries, a, b, Entry(op.key, op.now, op.value));
    }
  }

  /** No Belady anomaly, expiry included: on any trace whatever a cache hits, a cache allowed more entries
      hits too, with the same value. */
  lemma {:induction false} LargerCacheHitsToo<V(!new)>(cfg: Config, max: nat, ops: seq<Op<V>>, key: string, now: real)
    requires cfg.maxEntries <= max
    requires Hits(cfg, Run(cfg, ops), key, now)
    ensures var big := cfg.(maxEntries := max);
            Hits(big, Run(big, ops), key, now) && Find(Run(big, ops), key) == Find(Run(cfg, ops), key)
    decreases max - cfg.maxEntries
  {
    if cfg.maxEntries < max {
      var next := cfg.(maxEntries := cfg.maxEntries + 1);
      OneMoreEntry(cfg, ops);
      GetKeepsOneApart(cfg, cfg.maxEntries, Run(cfg, ops), Run(next, ops), key, now);
      LargerCacheHitsToo(next, max, ops, key, now);
    }
  }
}
