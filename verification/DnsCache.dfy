/**
  The hash table of dns_cache.c: buckets, the last-used list, the memory counter and the
  reference counts, changed in place by find, add, remove, clean, eviction and flush.

  The circular lists are sequences here (CacheRings shows that the pointers follow them), ticks
  are unbounded integers, and every operation runs with the hash lock held.
 */
module DnsCache {
  import opened CaseHash
  import opened Options
  import opened Sequences
  import opened DnsTable

  function TotalSize(s: seq<Entry>): nat {
    if s == [] then 0 else s[0].totalSize + TotalSize(s[1..])
  }

  /**
    The table is coherent: every entry of `order` is linked exactly once in the bucket of its
    own name and exactly once on the last-used list, nothing else is linked anywhere, and the
    counter is the sum of the sizes.
   */
  ghost predicate Coherent(nm: Naming, buckets: seq<seq<Entry>>, lastUsed: seq<Entry>, memUsed: int,
                           order: seq<Entry>) {
    && GoodNaming(nm)
    && |buckets| == HASH_SIZE
    && Distinct(order) && Distinct(lastUsed)
    && (forall h | 0 <= h < HASH_SIZE :: buckets[h] == InBucket(nm, order, h))
    && (forall e | e in order :: e in lastUsed)
    && (forall e | e in lastUsed :: e in order)
    && memUsed == TotalSize(order)
    && (forall e | e in order :: WellFormed(e))
  }

  lemma {:induction false} TotalSizeConcat(s: seq<Entry>, t: seq<Entry>)
    ensures TotalSize(s + t) == TotalSize(s) + TotalSize(t)
  {
    if s == [] {
      assert s + t == t;
    } else {
      assert (s + t)[1..] == s[1..] + t;
      TotalSizeConcat(s[1..], t);
    }
  }

  lemma {:induction false} TotalSizeMinus(s: seq<Entry>, e: Entry)
    requires Distinct(s) && e in s
    ensures TotalSize(Minus(s, {e})) == TotalSize(s) - e.totalSize
  {
    if s[0] == e {
      MinusNothing(s[1..], {e});
      assert Minus(s, {e}) == s[1..];
    } else {
      TotalSizeMinus(s[1..], e);
      var r := Minus(s[1..], {e});
      assert Minus(s, {e}) == [s[0]] + r && ([s[0]] + r)[1..] == r;
    }
  }

  lemma RemoveKeepsCoherent(nm: Naming, buckets: seq<seq<Entry>>, lastUsed: seq<Entry>, memUsed: int,
                            order: seq<Entry>, e: Entry)
    requires Coherent(nm, buckets, lastUsed, memUsed, order) && e in order
    ensures var h := nm.hash(e.name);
            Coherent(nm, buckets[h := Minus(buckets[h], {e})], Minus(lastUsed, {e}), memUsed - e.totalSize,
                     Minus(order, {e}))
  {
    var h := nm.hash(e.name);
    var buckets' := buckets[h := Minus(buckets[h], {e})];
    forall k | 0 <= k < HASH_SIZE
      ensures buckets'[k] == InBucket(nm, Minus(order, {e}), k)
    {
      InBucketMinus(nm, order, {e}, k);
      if k != h {
        MinusNothing(buckets[k], {e});
      }
    }
    MinusDistinct(order, {e});
    MinusDistinct(lastUsed, {e});
    TotalSizeMinus(order, e);
  }

  lemma AddKeepsCoherent(nm: Naming, buckets: seq<seq<Entry>>, lastUsed: seq<Entry>, memUsed: int, order: seq<Entry>,
                         e: Entry)
    requires Coherent(nm, buckets, lastUsed, memUsed, order) && e !in order && WellFormed(e)
    ensures var h := nm.hash(e.name);
            Coherent(nm, buckets[h := buckets[h] + [e]], lastUsed + [e], memUsed + e.totalSize, order + [e])
  {
    var h := nm.hash(e.name);
    var buckets' := buckets[h := buckets[h] + [e]];
    forall k | 0 <= k < HASH_SIZE
      ensures buckets'[k] == InBucket(nm, order + [e], k)
    {
      InBucketConcat(nm, order, [e], k);
      assert InBucket(nm, [e], k) == if k == h then [e] else [];
    }
    DistinctSnoc(order, e);
    DistinctSnoc(lastUsed, e);
    TotalSizeConcat(order, [e]);
    assert TotalSize([e]) == e.totalSize;
  }

  /** `clist_rm` and `clist_append` on the last-used list. */
  function Touch(lastUsed: seq<Entry>, e: Entry): seq<Entry> {
    Minus(lastUsed, {e}) + [e]
  }

  function TouchAll(lastUsed: seq<Entry>, used: seq<Entry>): seq<Entry>
    decreases |used|
  {
    if used == [] then lastUsed else TouchAll(Touch(lastUsed, used[0]), used[1..])
  }

  lemma TouchKeepsCoherent(nm: Naming, buckets: seq<seq<Entry>>, lastUsed: seq<Entry>, memUsed: int,
                           order: seq<Entry>, e: Entry)
    requires Coherent(nm, buckets, lastUsed, memUsed, order) && e in order
    ensures Coherent(nm, buckets, Touch(lastUsed, e), memUsed, order)
  {
    MinusDistinct(lastUsed, {e});
    DistinctSnoc(Minus(lastUsed, {e}), e);
  }

  /** Removing entries that are not touched can be done before or after. */
  lemma TouchMinus(lastUsed: seq<Entry>, e: Entry, gone: set<Entry>)
    requires e !in gone
    ensures Minus(Touch(lastUsed, e), gone) == Touch(Minus(lastUsed, gone), e)
  {
    MinusConcat(Minus(lastUsed, {e}), [e], gone);
    MinusTwice(lastUsed, {e}, gone);
    MinusTwice(lastUsed, gone, {e});
    assert {e} + gone == gone + {e};
    MinusNothing([e], gone);
  }

  /** The lists of the table, the counter and the entries in it. */
  datatype Lists = Lists(buckets: seq<seq<Entry>>, lastUsed: seq<Entry>, memUsed: int, order: seq<Entry>)

  ghost predicate InOrder(nm: Naming, ls: Lists) {
    Coherent(nm, ls.buckets, ls.lastUsed, ls.memUsed, ls.order)
  }

  /** Without e. */
  function Unlinked(nm: Naming, ls: Lists, e: Entry): Lists
    requires nm.hash(e.name) < |ls.buckets|
  {
    var h := nm.hash(e.name);
    Lists(ls.buckets[h := Minus(ls.buckets[h], {e})], Minus(ls.lastUsed, {e}), ls.memUsed - e.totalSize,
          Minus(ls.order, {e}))
  }

  /** With e as the newest entry. */
  function Appended(nm: Naming, ls: Lists, e: Entry): Lists
    requires nm.hash(e.name) < |ls.buckets|
  {
    var h := nm.hash(e.name);
    Lists(ls.buckets[h := ls.buckets[h] + [e]], ls.lastUsed + [e], ls.memUsed + e.totalSize, ls.order + [e])
  }

  /** With e as the entry used last. */
  function Retouched(ls: Lists, e: Entry): Lists {
    ls.(lastUsed := Touch(ls.lastUsed, e))
  }

  /** A step by which the lists change: an entry is taken out, added or used. */
  datatype Step = Out(e: Entry) | In(e: Entry) | Touched(e: Entry)

  ghost predicate Possible(ls: Lists, st: Step) {
    match st
    case Out(e) => e in ls.order
    case In(e) => e !in ls.order && WellFormed(e)
    case Touched(e) => e in ls.order
  }

  function Stepped(nm: Naming, ls: Lists, st: Step): Lists
    requires nm.hash(st.e.name) < |ls.buckets|
  {
    match st
    case Out(e) => Unlinked(nm, ls, e)
    case In(e) => Appended(nm, ls, e)
    case Touched(e) => Retouched(ls, e)
  }

  /** An empty table. */
  function NoLists(): Lists {
    Lists(seq(HASH_SIZE, _ => []), [], 0, [])
  }

  /** The steps, one after another, lead from ls to ls'. */
  ghost predicate IsRun(nm: Naming, ls: Lists, steps: seq<Step>, ls': Lists)
    decreases |steps|
  {
    if steps == [] then ls' == ls
    else
      var st := steps[0];
      Possible(ls, st) && nm.hash(st.e.name) < |ls.buckets| && IsRun(nm, Stepped(nm, ls, st), steps[1..], ls')
  }

  lemma {:induction false} RunOn(nm: Naming, ls: Lists, steps: seq<Step>, ls1: Lists, st: Step)
    requires IsRun(nm, ls, steps, ls1) && Possible(ls1, st) && nm.hash(st.e.name) < |ls1.buckets|
    ensures IsRun(nm, ls, steps + [st], Stepped(nm, ls1, st))
    decreases |steps|
  {
    if steps == [] {
      assert (steps + [st])[1..] == [];
    } else {
      assert (steps + [st])[1..] == steps[1..] + [st];
      RunOn(nm, Stepped(nm, ls, steps[0]), steps[1..], ls1, st);
    }
  }

  /** The lists are in order, and what these steps have made of an empty table. */
  ghost predicate Kept(nm: Naming, past: seq<Step>, ls: Lists) {
    InOrder(nm, ls) && IsRun(nm, NoLists(), past, ls)
  }

  lemma StepInOrder(nm: Naming, ls: Lists, st: Step)
    requires InOrder(nm, ls) && Possible(ls, st)
    ensures nm.hash(st.e.name) < |ls.buckets| && InOrder(nm, Stepped(nm, ls, st))
  {
    match st
    case Out(e) => RemoveKeepsCoherent(nm, ls.buckets, ls.lastUsed, ls.memUsed, ls.order, e);
    case In(e) => AddKeepsCoherent(nm, ls.buckets, ls.lastUsed, ls.memUsed, ls.order, e);
    case Touched(e) => TouchKeepsCoherent(nm, ls.buckets, ls.lastUsed, ls.memUsed, ls.order, e);
  }

  lemma StepKept(nm: Naming, past: seq<Step>, ls: Lists, st: Step)
    requires Kept(nm, past, ls) && Possible(ls, st)
    ensures nm.hash(st.e.name) < |ls.buckets| && Kept(nm, past + [st], Stepped(nm, ls, st))
  {
    StepInOrder(nm, ls, st);
    RunOn(nm, NoLists(), past, ls, st);
  }

  /** What a purge may remove: cleaning and eviction spare permanent entries, a flush need not. */
  datatype Purge = Purge(permanentToo: bool, expiredOnly: bool, now: int)

  predicate Removable(e: Entry, p: Purge) {
    (p.permanentToo || !e.permanent) && (!p.expiredOnly || p.now >= e.expire)
  }

  /** The removable entries of s. */
  function Doomed(s: seq<Entry>, p: Purge): (r: set<Entry>)
    ensures forall e {:trigger e in r} | e in r :: e in s && Removable(e, p)
    ensures forall e {:trigger e in r} | e in s && Removable(e, p) :: e in r
  {
    if s == [] then {}
    else if Removable(s[|s| - 1], p) then Doomed(s[..|s| - 1], p) + {s[|s| - 1]}
    else Doomed(s[..|s| - 1], p)
  }

  /** How many entries of s are removable. */
  function RemovableCount(s: seq<Entry>, p: Purge): nat {
    if s == [] then 0
    else RemovableCount(s[..|s| - 1], p) + if Removable(s[|s| - 1], p) then 1 else 0
  }

  class Cache {
    const nm: Naming
    var buckets: seq<seq<Entry>>       // dns_hash, one list per hash value
    var lastUsed: seq<Entry>           // dns_last_used_lst
    var memUsed: int                   // *dns_cache_mem_used
    ghost var order: seq<Entry>        // the entries in the table, oldest first
    ghost var past: seq<Step>          // the steps that have made the lists what they are
    ghost var held: multiset<Entry>    // references outside the table
    ghost var live: set<Entry>         // entries with references, not yet freed
    ghost var known: set<Entry>        // every entry the cache has ever seen

    /** References to e: one for the table, and those held outside. */
    ghost function RefsOf(e: Entry): nat
      reads this
    {
      held[e] + if e in order then 1 else 0
    }

    ghost predicate Linked()
      reads this`buckets, this`lastUsed, this`memUsed, this`order, this`past
    {
      Kept(nm, past, Now())
    }

    ghost function Now(): Lists
      reads this`buckets, this`lastUsed, this`memUsed, this`order
    {
      Lists(buckets, lastUsed, memUsed, order)
    }

    /** Every reference is counted, and exactly the referenced entries are alive. */
    ghost predicate Counted()
      reads this, live
    {
      && (forall e | e in live :: e.refcnt == RefsOf(e) && e.refcnt > 0)
      && (forall e | e in order :: e in live)
      && (forall e | e in held :: e in live)
      && live <= known
    }

    ghost predicate Valid()
      reads this, live
    {
      Linked() && Counted()
    }

    /** `init_dns_cache`, with the counter at 0. */
    constructor ()
      ensures Valid() && order == [] && held == multiset{} && nm == DNS_NAMING && known == {} && past == []
    {
      nm := DNS_NAMING;
      buckets := seq(HASH_SIZE, _ => []);
      lastUsed, memUsed, order, held := [], 0, [], multiset{};
      live, known, past := {}, {}, [];
      new;
      DnsNamingIsGood();
    }

    /** `dns_hash_put` on the counter: the entry is freed when the last reference goes. */
    method Release(e: Entry)
      requires e in live
      modifies e`refcnt, this`live
      ensures e.refcnt == old(e.refcnt) - 1
      ensures live == if e.refcnt == 0 then old(live) - {e} else old(live)
    {
      e.refcnt := e.refcnt - 1;
      if e.refcnt == 0 {
        live := live - {e};
      }
    }

    /** Everything is counted, but for one reference to e that is gone already. */
    ghost predicate OneTooMany(e: Entry)
      reads this, live
    {
      && e in live && e.refcnt > 0
      && (forall f | f in live :: f.refcnt == RefsOf(f) + if f == e then 1 else 0)
      && (forall f | f in live :: f.refcnt > 0)
      && (forall f | f in order :: f in live)
      && (forall f | f in held :: f in live)
      && live <= known
    }

    /** A reference that is gone is no longer counted. */
    method Uncount(e: Entry)
      requires OneTooMany(e)
      modifies e`refcnt, this`live
      ensures Counted() && live == if old(e.refcnt) > 1 then old(live) else old(live) - {e}
    {
      Release(e);
    }

    /** `dns_hash_put`: gives back a reference held outside the table. */
    method HashPut(e: Entry)
      requires Valid() && e in held
      modifies this`held, this`live, e`refcnt
      ensures Valid() && held == old(held) - multiset{e}
      ensures e in live <==> old(RefsOf(e)) > 1
      ensures live == if e in live then old(live) else old(live) - {e}
    {
      held := held - multiset{e};
      Uncount(e);
    }

    /** The unlinking half of `_dns_hash_remove`. */
    method Unlink(e: Entry)
      requires Linked() && e in order
      modifies this`past, this`lastUsed, this`memUsed, this`order, this`buckets
      ensures Linked()
      ensures order == Minus(old(order), {e}) && lastUsed == Minus(old(lastUsed), {e})
      ensures memUsed == old(memUsed) - e.totalSize
      ensures past == old(past) + [Out(e)]
    {
      StepKept(nm, past, Now(), Out(e));
      var h := nm.hash(e.name);
      past := past + [Out(e)];
      buckets := buckets[h := Minus(buckets[h], {e})];
      lastUsed := Minus(lastUsed, {e});
      memUsed := memUsed - e.totalSize;
      order := Minus(order, {e});
    }

    /** `_dns_hash_remove` */
    method HashRemove(e: Entry)
      requires Valid() && e in order
      modifies this`past, this`lastUsed, this`memUsed, this`order, this`live, this`buckets, e`refcnt
      ensures Valid()
      ensures order == Minus(old(order), {e}) && lastUsed == Minus(old(lastUsed), {e})
      ensures memUsed == old(memUsed) - e.totalSize
      ensures live == if e in held then old(live) else old(live) - {e}
    {
      Unlink(e);
      Uncount(e);
    }

    /** `_dns_hash_remove` inside a loop that has already removed `gone`. */
    method RemoveAlso(e: Entry, ghost order0: seq<Entry>, ghost used0: seq<Entry>, ghost gone: set<Entry>)
      requires Valid() && e in order
      requires order == Minus(order0, gone) && lastUsed == Minus(used0, gone)
      modifies this`past, this`lastUsed, this`memUsed, this`order, this`live, this`buckets, e`refcnt
      ensures Valid()
      ensures order == Minus(order0, gone + {e}) && lastUsed == Minus(used0, gone + {e})
      ensures memUsed == old(memUsed) - e.totalSize
    {
      MinusTwice(order0, gone, {e});
      MinusTwice(used0, gone, {e});
      HashRemove(e);
    }

    /** One entry of a bucket pass: removed if it has expired, else compared with the query. */
    method ScanOne(bucket: seq<Entry>, i: nat, q: Query, ghost order0: seq<Entry>, ghost used0: seq<Entry>,
                   ghost gone: set<Entry>)
      returns (isHit: bool, ghost gone': set<Entry>)
      requires Valid() && i < |bucket| && Scanned(nm, order0, bucket, i, q, gone)
      requires order == Minus(order0, gone) && lastUsed == Minus(used0, gone)
      modifies this`past, this`lastUsed, this`memUsed, this`order, this`live, this`buckets, known`refcnt
      ensures Valid()
      ensures order == Minus(order0, gone') && lastUsed == Minus(used0, gone')
      ensures if isHit then FirstMatch(nm, bucket, q) == Some(bucket[i]) && gone' == Swept(nm, bucket, q)
              else Scanned(nm, order0, bucket, i + 1, q, gone')
    {
      var e := bucket[i];
      ScanStep(nm, order0, bucket, i, q, gone);
      isHit, gone' := false, gone;
      if Expired(e, q) {
        RemoveAlso(e, order0, used0, gone);
        gone' := gone + {e};
      } else if Hits(nm, e, q) {
        isHit := true;
      }
    }

    /** One pass over the bucket of the name: removes what has expired, stops at the first hit. */
    method ScanPass(q: Query) returns (hit: Option<Entry>)
      requires Valid()
      modifies this`past, this`lastUsed, this`memUsed, this`order, this`live, this`buckets, known`refcnt
      ensures Valid()
      ensures hit == FirstMatch(nm, old(order), q)
      ensures order == Minus(old(order), SweptHere(nm, old(order), q))
      ensures lastUsed == Minus(old(lastUsed), SweptHere(nm, old(order), q))
    {
      var bucket := buckets[nm.hash(q.name)];
      ScanBegins(nm, order, lastUsed, q);
      ghost var gone := {};
      var i, isHit := 0, false;
      while i < |bucket|
        invariant 0 <= i <= |bucket|
        invariant Valid()
        invariant order == Minus(old(order), gone) && lastUsed == Minus(old(lastUsed), gone)
        invariant Scanned(nm, old(order), bucket, i, q, gone)
      {
        isHit, gone := ScanOne(bucket, i, q, old(order), old(lastUsed), gone);
        if isHit {
          return Some(bucket[i]);
        }
        i := i + 1;
      }
      ScanEnds(nm, old(order), bucket, q, gone);
      hit := None;
    }

    /** The same pass: what it removes has expired. */
    method ScanBucket(q: Query) returns (hit: Option<Entry>)
      requires Valid()
      modifies this`past, this`lastUsed, this`memUsed, this`order, this`live, this`buckets, known`refcnt
      ensures Valid()
      ensures hit == FirstMatch(nm, old(order), q)
      ensures order == Minus(old(order), SweptHere(nm, old(order), q))
      ensures lastUsed == Minus(old(lastUsed), SweptHere(nm, old(order), q))
      ensures forall e | e in old(order) && e !in order :: q.serversUp && !e.permanent && q.now >= e.expire
    {
      hit := ScanPass(q);
      SweptHaveExpired(old(order), SweptHere(nm, old(order), q), q);
    }

    /** A further bucket pass of a lookup that has used `used` and removed `gone` so far. */
    method ScanAgain(q: Query, ghost order0: seq<Entry>, ghost used0: seq<Entry>, ghost used: seq<Entry>,
                     ghost gone: set<Entry>)
      returns (hit: Option<Entry>, ghost gone': set<Entry>)
      requires Valid() && order == Minus(order0, gone) && lastUsed == TouchAll(Minus(used0, gone), used)
      requires (forall e | e in gone :: Expired(e, q)) && (forall e | e in used :: !Expired(e, q))
      modifies this`past, this`lastUsed, this`memUsed, this`order, this`live, this`buckets, known`refcnt
      ensures Valid()
      ensures hit == FirstMatch(nm, order0, q)
      ensures gone' == gone + SweptHere(nm, order0, q)
      ensures order == Minus(order0, gone') && lastUsed == TouchAll(Minus(used0, gone'), used)
      ensures hit.Some? ==> hit.value in order
    {
      hit := ScanBucket(q);
      gone' := gone + SweptHere(nm, order0, q);
      SweepAgain(nm, order0, used0, used, gone, q);
    }

    /** The entry moves to the end of the last-used list. */
    method Retouch(e: Entry)
      requires Linked() && e in order
      modifies this`past, this`lastUsed
      ensures Linked() && lastUsed == Touch(old(lastUsed), e) && past == old(past) + [Touched(e)]
    {
      StepKept(nm, past, Now(), Touched(e));
      past := past + [Touched(e)];
      lastUsed := Touch(lastUsed, e);
    }

    /** `e->last_used=now` and the move to the end of the last-used list. */
    method MarkUsed(e: Entry, now: int)
      requires Valid() && e in order
      modifies this`past, this`lastUsed, e`lastUsed
      ensures Valid() && lastUsed == Touch(old(lastUsed), e) && e.lastUsed == now
    {
      e.lastUsed := now;
      Retouch(e);
    }

    /** One hop of a lookup: scan the bucket and, if there is a hit, mark it used. */
    method Hop(q: Query, ghost order0: seq<Entry>, ghost used0: seq<Entry>, ghost used: seq<Entry>,
               ghost gone: set<Entry>)
      returns (hit: Option<Entry>)
      requires Valid() && Sofar(order0, used0, used, gone)
      requires (forall e | e in gone :: Expired(e, q)) && (forall e | e in used :: !Expired(e, q))
      modifies this`past, this`lastUsed, this`memUsed, this`order, this`live, this`buckets, known`refcnt, known`lastUsed
      ensures Valid()
      ensures hit == FirstMatch(nm, order0, q)
      ensures Sofar(order0, used0, if hit.None? then used else used + [hit.value], gone + SweptHere(nm, order0, q))
      ensures hit.Some? ==> hit.value in order && !Expired(hit.value, q)
    {
      ghost var gone';
      hit, gone' := ScanAgain(q, order0, used0, used, gone);
      if hit.Some? {
        TouchAllSnoc(Minus(used0, gone'), used, hit.value);
        MarkUsed(hit.value, q.now);
      }
    }

    /** The table is the original one without `gone`, and `used` have been used. */
    ghost predicate Sofar(order0: seq<Entry>, used0: seq<Entry>, used: seq<Entry>, gone: set<Entry>)
      reads this
    {
      order == Minus(order0, gone) && lastUsed == TouchAll(Minus(used0, gone), used)
    }

    /** One turn of the `again` loop of `_dns_hash_find`. */
    method Turn(q: Query, chain: nat, last: Option<Entry>, ghost c: Chase)
      returns (done: bool, found: Option<Entry>, err: bool, ghost c': Chase)
      requires Valid() && Sofar(c.order0, c.used0, c.used, c.gone) && Chased(nm, c, q, chain, last)
      modifies this`past, this`lastUsed, this`memUsed, this`order, this`live, this`buckets, known`refcnt, known`lastUsed
      ensures Valid()
      ensures Sofar(c'.order0, c'.used0, c'.used, c'.gone) && c'.order0 == c.order0 && c'.used0 == c.used0
              && c'.q0 == c.q0
      ensures done ==> Finished(nm, c', Answer(found, err))
      ensures !done ==> chain <= MAX_CNAME_CHAIN && found.Some?
      ensures !done ==> Chased(nm, c', q.(name := Target(found.value)), chain + 1, found)
    {
      var hit := Hop(q, c.order0, c.used0, c.used, c.gone);
      c' := Advance(nm, c, q);
      if hit.None? {
        ChaseEnds(nm, c, q, chain, last);
        return true, last, false, c';
      } else if hit.value.rrType == q.rrType {
        ChaseEnds(nm, c, q, chain, last);
        return true, hit, false, c';
      } else if chain > MAX_CNAME_CHAIN {
        ChaseEnds(nm, c, q, chain, last);
        return true, None, true, c';
      } else {
        ChaseContinues(nm, c, q, chain, last);
        return false, hit, false, c';
      }
    }

    /**
      `_dns_hash_find`: answers exactly what the flat list answers, removes the expired entries
      it passes in the buckets it visits and nothing else, and moves every entry it uses to the
      end of the last-used list.
     */
    method Find(q0: Query) returns (found: Option<Entry>, err: bool)
      requires Valid()
      modifies this`past, this`lastUsed, this`memUsed, this`order, this`live, this`buckets, known`refcnt, known`lastUsed
      ensures Valid()
      ensures Answer(found, err) == FlatFind(nm, old(order), q0, 0, None)
      ensures found.Some? && q0.serversUp && !found.value.permanent ==> q0.now < found.value.expire
      ensures forall e | e in old(order) && e !in order :: q0.serversUp && !e.permanent && q0.now >= e.expire
      ensures Sofar(old(order), old(lastUsed), Used(nm, old(order), q0, 0), SweptBy(nm, old(order), q0, 0))
    {
      ghost var c := Chase(order, lastUsed, q0, [], {});
      ChaseBegins(nm, c);
      var q, chain, done := q0, 0, false;
      found, err := None, false;
      while !done
        invariant Valid()
        invariant Sofar(old(order), old(lastUsed), c.used, c.gone)
        invariant c.order0 == old(order) && c.used0 == old(lastUsed) && c.q0 == q0
        invariant if done then Finished(nm, c, Answer(found, err))
                  else chain <= MAX_CNAME_CHAIN + 1 && Chased(nm, c, q, chain, found)
        decreases !done, MAX_CNAME_CHAIN + 1 - chain
      {
        done, found, err, c := Turn(q, chain, found, c);
        if !done {
          q, chain := q.(name := Target(found.value)), chain + 1;
        }
      }
      AnswerIsLive(nm, old(order), q0, 0, None);
    }

    /** `atomic_inc(&e->refcnt)` for somebody outside the table. */
    method AddRef(e: Entry)
      requires Valid() && e in live
      modifies this`held, e`refcnt
      ensures Valid() && held == old(held) + multiset{e}
    {
      e.refcnt := e.refcnt + 1;
      held := held + multiset{e};
    }

    /** A new entry, not in the table, with one reference for somebody outside. */
    method Adopt(e: Entry)
      requires Valid() && e !in known && e !in order && e.refcnt == 0
      modifies this`held, this`live, this`known, e`refcnt
      ensures Valid() && held == old(held) + multiset{e} && live == old(live) + {e} && known == old(known) + {e}
    {
      e.refcnt := 1;
      held, live, known := held + multiset{e}, live + {e}, known + {e};
    }

    /** `dns_hash_get`: a lookup whose answer comes with a reference of its own. */
    method HashGet(q: Query) returns (found: Option<Entry>, err: bool)
      requires Valid()
      modifies this`past, this`lastUsed, this`memUsed, this`order, this`live, this`buckets, this`held, known`refcnt,
               known`lastUsed
      ensures Valid()
      ensures Answer(found, err) == FlatFind(nm, old(order), q, 0, None)
      ensures order == Minus(old(order), SweptBy(nm, old(order), q, 0))
      ensures lastUsed == TouchAll(Minus(old(lastUsed), SweptBy(nm, old(order), q, 0)), Used(nm, old(order), q, 0))
      ensures found.Some? && q.serversUp && !found.value.permanent ==> q.now < found.value.expire
      ensures forall e | e in old(order) && e !in order :: q.serversUp && !e.permanent && q.now >= e.expire
      ensures held == if found.Some? then old(held) + multiset{found.value} else old(held)
      ensures found.Some? ==> found.value in order
    {
      found, err := Find(q);
      if found.Some? {
        FoundStays(nm, old(order), q);
        AddRef(found.value);
      }
    }

    // ----- Cleaning and eviction -----

    /** The removable entries among the first i that the walk passes are gone, and counted. */
    ghost predicate Cleaned(w: Walk, i: nat, deleted: nat)
      reads this
    {
      && i <= |w.path|
      && order == Minus(w.order0, Doomed(w.path[..i], w.purge))
      && lastUsed == Minus(w.lru0, Doomed(w.path[..i], w.purge))
      && memUsed == w.mem0 - Freed(w.path[..i], w.purge)
      && deleted == RemovableCount(w.path[..i], w.purge)
    }

    /** The body of the purging loops, at entry e of the list they walk. */
    method CleanOne(e: Entry, p: Purge, deleted: nat, ghost w: Walk, ghost i: nat) returns (deleted': nat)
      requires Valid() && Walkable(w) && i < |w.path| && e == w.path[i] && p == w.purge
      requires Cleaned(w, i, deleted)
      modifies this`past, this`lastUsed, this`memUsed, this`order, this`live, this`buckets, known`refcnt
      ensures Valid() && Cleaned(w, i + 1, deleted')
    {
      CleanStep(w.path, i, p);
      deleted' := deleted;
      if Removable(e, p) {
        assert e in order;
        RemoveAlso(e, w.order0, w.lru0, Doomed(w.path[..i], p));
        deleted' := deleted + 1;
      }
    }

    /** A purging loop that walks its whole list. */
    method PurgeAll(path: seq<Entry>, p: Purge, ghost w: Walk) returns (deleted: nat)
      requires Valid() && w == Walk(path, order, lastUsed, memUsed, p) && Walkable(w)
      modifies this`past, this`lastUsed, this`memUsed, this`order, this`live, this`buckets, known`refcnt
      ensures Valid() && Cleaned(w, |path|, deleted)
    {
      NothingCleaned(w);
      var i := 0;
      deleted := 0;
      while i < |path|
        invariant 0 <= i <= |path|
        invariant Valid()
        invariant Cleaned(w, i, deleted)
      {
        deleted := CleanOne(path[i], p, deleted, w, i);
        i := i + 1;
      }
    }

    /** The walk of `dns_cache_clean`. */
    method CleanWalk(no: nat, expiredOnly: bool, now: int) returns (deleted: nat, ghost k: nat)
      requires Valid()
      modifies this`past, this`lastUsed, this`memUsed, this`order, this`live, this`buckets, known`refcnt
      ensures Valid()
      ensures Cleaned(LruWalk(old(order), old(lastUsed), old(memUsed), expiredOnly, now), k, deleted)
      ensures k <= |old(lastUsed)| && k <= (if no == 0 then 1 else no)
      ensures k == |old(lastUsed)| || k == if no == 0 then 1 else no
    {
      var lru := lastUsed;
      ghost var w := LruWalk(order, lru, memUsed, expiredOnly, now);
      NothingCleaned(w);
      var n, most := 0, if no == 0 then 1 else no;
      deleted := 0;
      while n < |lru| && n < most
        invariant 0 <= n <= |lru| && n <= most
        invariant Valid()
        invariant Cleaned(w, n, deleted)
      {
        deleted := CleanOne(lru[n], Purge(false, expiredOnly, now), deleted, w, n);
        n := n + 1;
      }
      k := n;
    }

    /** `dns_cache_clean`: looks at no entries of the last-used list at most, but at one at least. */
    method Clean(no: nat, expiredOnly: bool, now: int) returns (deleted: nat, ghost k: nat)
      requires Valid()
      modifies this`past, this`lastUsed, this`memUsed, this`order, this`live, this`buckets, known`refcnt
      ensures Valid()
      ensures Cleaned(LruWalk(old(order), old(lastUsed), old(memUsed), expiredOnly, now), k, deleted)
      ensures k <= |old(lastUsed)| && k <= (if no == 0 then 1 else no)
      ensures k == |old(lastUsed)| || k == if no == 0 then 1 else no
      ensures forall e | e in old(order) && e !in order :: !e.permanent && (expiredOnly ==> now >= e.expire)
      ensures forall e | e in order && e in old(lastUsed)[..k] :: e.permanent || (expiredOnly && now < e.expire)
    {
      deleted, k := CleanWalk(no, expiredOnly, now);
      PurgedExactly(old(order), old(lastUsed)[..k], Purge(false, expiredOnly, now));
    }

    /**
      `dns_cache_free_mem`: walks the last-used list from its least recently used end and stops
      as soon as the memory in use is at most target.  k entries are walked: the removable ones
      among them are gone, nothing else is, and no shorter walk would have reached the target.
     */
    method FreeMem(target: int, expiredOnly: bool, now: int) returns (deleted: nat, ghost k: nat)
      requires Valid()
      modifies this`past, this`lastUsed, this`memUsed, this`order, this`live, this`buckets, known`refcnt
      ensures Valid()
      ensures Cleaned(LruWalk(old(order), old(lastUsed), old(memUsed), expiredOnly, now), k, deleted)
      ensures memUsed <= target || k == |old(lastUsed)|
      ensures AboveTarget(LruWalk(old(order), old(lastUsed), old(memUsed), expiredOnly, now), k, target)
      ensures forall e | e in old(order) && e !in order :: !e.permanent && (expiredOnly ==> now >= e.expire)
      ensures forall e | e in order && e in old(lastUsed)[..k] :: e.permanent || (expiredOnly && now < e.expire)
    {
      var lru := lastUsed;
      ghost var w := LruWalk(order, lru, memUsed, expiredOnly, now);
      NothingCleaned(w);
      var i := 0;
      deleted := 0;
      while i < |lru| && memUsed > target
        invariant 0 <= i <= |lru|
        invariant Valid()
        invariant Cleaned(w, i, deleted)
        invariant AboveTarget(w, i, target)
      {
        AboveTargetStep(w, i, target);
        deleted := CleanOne(lru[i], Purge(false, expiredOnly, now), deleted, w, i);
        i := i + 1;
      }
      PurgedExactly(w.order0, lru[..i], w.purge);
      k := i;
    }

    /** The linking half of `dns_cache_add`. */
    method Append(e: Entry)
      requires Linked() && WellFormed(e) && e !in order
      modifies this`past, this`lastUsed, this`memUsed, this`order, this`buckets
      ensures Linked()
      ensures order == old(order) + [e] && lastUsed == old(lastUsed) + [e]
      ensures memUsed == old(memUsed) + e.totalSize
      ensures past == old(past) + [In(e)]
    {
      StepKept(nm, past, Now(), In(e));
      var h := nm.hash(e.name);
      past := past + [In(e)];
      memUsed := memUsed + e.totalSize;
      buckets := buckets[h := buckets[h] + [e]];
      lastUsed := lastUsed + [e];
      order := order + [e];
    }

    /** An entry goes into the table, which takes a reference of its own. */
    method Link(e: Entry)
      requires Valid() && WellFormed(e) && e !in order && e.refcnt == held[e] && (e in live || e !in known)
      modifies this`past, this`lastUsed, this`memUsed, this`order, this`live, this`known, this`buckets, e`refcnt
      ensures Valid()
      ensures order == old(order) + [e] && lastUsed == old(lastUsed) + [e]
      ensures memUsed == old(memUsed) + e.totalSize && known == old(known) + {e}
    {
      e.refcnt := e.refcnt + 1;
      Append(e);
      live, known := live + {e}, known + {e};
    }

    /**
      The space check of `dns_cache_add`: if there is no room an eighth of the memory in use is
      evicted.  k entries are walked by the eviction.
     */
    method MakeRoom(size: nat, maxMem: nat, delNonexp: bool, now: int) returns (ok: bool, ghost k: nat)
      requires Valid()
      modifies this`past, this`lastUsed, this`memUsed, this`order, this`live, this`buckets, known`refcnt
      ensures Valid()
      ensures Evicted(LruWalk(old(order), old(lastUsed), old(memUsed), !delNonexp, now), k, size, maxMem)
      ensures order == Minus(old(order), Doomed(old(lastUsed)[..k], Purge(false, !delNonexp, now)))
      ensures lastUsed == Minus(old(lastUsed), Doomed(old(lastUsed)[..k], Purge(false, !delNonexp, now)))
      ensures ok <==> memUsed + size < maxMem
      ensures old(memUsed) + size < maxMem ==> ok && order == old(order)
    {
      k := 0;
      NothingCleaned(LruWalk(order, lastUsed, memUsed, !delNonexp, now));
      if memUsed + size >= maxMem {
        var deleted;
        deleted, k := FreeMem(memUsed / 16 * 14, !delNonexp, now);
      }
      ok := memUsed + size < maxMem;
    }

    /**
      `dns_cache_add`: an entry is let in exactly if there is room for it, perhaps after an
      eviction.  Then the memory in use is below the limit.
     */
    method Add(e: Entry, maxMem: nat, delNonexp: bool, now: int) returns (ok: bool, ghost k: nat)
      requires Valid() && WellFormed(e) && e !in order && e.refcnt == held[e] && (e in live || e !in known)
      modifies this`past, this`lastUsed, this`memUsed, this`order, this`live, this`known, this`buckets, known`refcnt,
               e`refcnt
      ensures Valid()
      ensures Evicted(LruWalk(old(order), old(lastUsed), old(memUsed), !delNonexp, now), k, e.totalSize, maxMem)
      ensures order == Minus(old(order), Doomed(old(lastUsed)[..k], Purge(false, !delNonexp, now)))
                       + if ok then [e] else []
      ensures lastUsed == Minus(old(lastUsed), Doomed(old(lastUsed)[..k], Purge(false, !delNonexp, now)))
                          + if ok then [e] else []
      ensures if ok then memUsed < maxMem else memUsed + e.totalSize >= maxMem
      ensures old(memUsed) + e.totalSize < maxMem ==> ok && order == old(order) + [e]
      ensures known == if ok then old(known) + {e} else old(known)
    {
      ok, k := MakeRoom(e.totalSize, maxMem, delNonexp, now);
      if ok {
        Link(e);
      }
    }

    /** One bucket of a flush. */
    method FlushBucket(h: nat, p: Purge)
      requires Valid() && h < HASH_SIZE
      modifies this`past, this`lastUsed, this`memUsed, this`order, this`live, this`buckets, known`refcnt
      ensures Valid()
      ensures order == Minus(old(order), Doomed(InBucket(nm, old(order), h), p))
      ensures lastUsed == Minus(old(lastUsed), Doomed(InBucket(nm, old(order), h), p))
    {
      var bucket := buckets[h];
      InBucketDistinct(nm, order, h);
      var deleted := PurgeAll(bucket, p, Walk(bucket, order, lastUsed, memUsed, p));
      assert bucket[..|bucket|] == bucket;
    }

    /** `dns_cache_flush`: exactly the permanent entries stay, and only if they are to be spared. */
    method Flush(delPermanent: bool)
      requires Valid()
      modifies this`past, this`lastUsed, this`memUsed, this`order, this`live, this`buckets, known`refcnt
      ensures Valid()
      ensures forall e | e in old(order) :: e in order <==> e.permanent && !delPermanent
      ensures exists gone :: order == Minus(old(order), gone) && lastUsed == Minus(old(lastUsed), gone)
    {
      var p := Purge(delPermanent, false, 0);
      ghost var gone := {};
      MinusNothing(order, {});
      MinusNothing(lastUsed, {});
      var h := 0;
      while h < HASH_SIZE
        invariant 0 <= h <= HASH_SIZE
        invariant Valid()
        invariant order == Minus(old(order), gone) && lastUsed == Minus(old(lastUsed), gone)
        invariant Flushing(nm, order, gone, h, p)
      {
        FlushStep(nm, old(order), old(lastUsed), gone, h, p);
        gone := gone + Doomed(InBucket(nm, order, h), p);
        FlushBucket(h, p);
        h := h + 1;
      }
    }
  }

  /** A walk over `path`, and the table it starts from. */
  datatype Walk = Walk(path: seq<Entry>, order0: seq<Entry>, lru0: seq<Entry>, mem0: int, purge: Purge)

  /** The walk of cleaning and eviction: least recently used entries first. */
  function LruWalk(order0: seq<Entry>, lru0: seq<Entry>, mem0: int, expiredOnly: bool, now: int): Walk {
    Walk(lru0, order0, lru0, mem0, Purge(false, expiredOnly, now))
  }

  ghost predicate Walkable(w: Walk) {
    Distinct(w.path) && forall e | e in w.path :: e in w.order0
  }

  /** What `dns_cache_add` evicts for an entry of this size: nothing if there is room for it. */
  ghost predicate Evicted(w: Walk, k: nat, size: nat, maxMem: nat) {
    && k <= |w.path|
    && if w.mem0 + size < maxMem then k == 0
       else
         && AboveTarget(w, k, w.mem0 / 16 * 14)
         && (k == |w.path| || w.mem0 - Freed(w.path[..k], w.purge) <= w.mem0 / 16 * 14)
  }

  /** A flush has come to bucket h: what is left of the buckets below is to be spared. */
  ghost predicate Flushing(nm: Naming, order: seq<Entry>, gone: set<Entry>, h: nat, p: Purge) {
    && (forall e | e in order :: nm.hash(e.name) < h ==> !Removable(e, p))
    && (forall e | e in gone :: Removable(e, p))
  }

  lemma FlushStep(nm: Naming, order0: seq<Entry>, lru0: seq<Entry>, gone: set<Entry>, h: nat, p: Purge)
    requires Flushing(nm, Minus(order0, gone), gone, h, p)
    ensures var order, gone' := Minus(order0, gone), gone + Doomed(InBucket(nm, Minus(order0, gone), h), p);
            && Minus(order, Doomed(InBucket(nm, order, h), p)) == Minus(order0, gone')
            && Minus(Minus(lru0, gone), Doomed(InBucket(nm, order, h), p)) == Minus(lru0, gone')
            && Flushing(nm, Minus(order0, gone'), gone', h + 1, p)
  {
    var order := Minus(order0, gone);
    var here := Doomed(InBucket(nm, order, h), p);
    MinusTwice(order0, gone, here);
    MinusTwice(lru0, gone, here);
    forall e | e in Minus(order, here) && nm.hash(e.name) < h + 1
      ensures !Removable(e, p)
    {
      if nm.hash(e.name) == h {
        assert e in InBucket(nm, order, h);
      }
    }
  }

  lemma SweptHaveExpired(order0: seq<Entry>, gone: set<Entry>, q: Query)
    requires forall e | e in gone :: Expired(e, q)
    ensures forall e | e in order0 && e !in Minus(order0, gone) :: q.serversUp && !e.permanent && q.now >= e.expire
  {}

  /** What a purge removes of the entries it walks over, and what it leaves. */
  lemma PurgedExactly(order0: seq<Entry>, path: seq<Entry>, p: Purge)
    ensures forall e | e in order0 && e !in Minus(order0, Doomed(path, p)) ::
              (p.permanentToo || !e.permanent) && (p.expiredOnly ==> p.now >= e.expire)
    ensures forall e | e in Minus(order0, Doomed(path, p)) && e in path ::
              (!p.permanentToo && e.permanent) || (p.expiredOnly && p.now < e.expire)
  {}

  /** Walking fewer than k entries leaves more than target in use. */
  ghost predicate AboveTarget(w: Walk, k: nat, target: int) {
    k <= |w.path| && forall j | 0 <= j < k :: w.mem0 - Freed(w.path[..j], w.purge) > target
  }

  lemma AboveTargetStep(w: Walk, k: nat, target: int)
    requires AboveTarget(w, k, target) && k < |w.path|
    requires w.mem0 - Freed(w.path[..k], w.purge) > target
    ensures AboveTarget(w, k + 1, target)
  {}

  /** Once the whole list has been walked nothing removable is left. */
  lemma NothingRemovableLeft(order0: seq<Entry>, lru0: seq<Entry>, p: Purge)
    requires forall e | e in order0 :: e in lru0
    ensures forall e | e in Minus(order0, Doomed(lru0[..|lru0|], p)) :: !Removable(e, p)
  {
    assert lru0[..|lru0|] == lru0;
  }

  /** Permanent entries survive every cleaning. */
  lemma PermanentSurvives(order0: seq<Entry>, s: seq<Entry>, p: Purge, e: Entry)
    requires e in order0 && e.permanent && !p.permanentToo
    ensures e in Minus(order0, Doomed(s, p))
  {}

  /** The memory of the removable entries of s. */
  function Freed(s: seq<Entry>, p: Purge): nat {
    if s == [] then 0
    else Freed(s[..|s| - 1], p)
         + if Removable(s[|s| - 1], p) then s[|s| - 1].totalSize else 0
  }

  lemma CleanStep(lru: seq<Entry>, i: nat, p: Purge)
    requires i < |lru| && Distinct(lru)
    ensures lru[i] !in Doomed(lru[..i], p)
    ensures Removable(lru[i], p) ==>
              && Doomed(lru[..i + 1], p) == Doomed(lru[..i], p) + {lru[i]}
              && RemovableCount(lru[..i + 1], p) == RemovableCount(lru[..i], p) + 1
              && Freed(lru[..i + 1], p) == Freed(lru[..i], p) + lru[i].totalSize
    ensures !Removable(lru[i], p) ==>
              && Doomed(lru[..i + 1], p) == Doomed(lru[..i], p)
              && RemovableCount(lru[..i + 1], p) == RemovableCount(lru[..i], p)
              && Freed(lru[..i + 1], p) == Freed(lru[..i], p)
  {
    assert lru[..i + 1][..i] == lru[..i];
    DistinctAt(lru, i);
  }

  lemma FoundStays(nm: Naming, order0: seq<Entry>, q: Query)
    ensures var a := FlatFind(nm, order0, q, 0, None);
            a.found.Some? ==> a.found.value in Minus(order0, SweptBy(nm, order0, q, 0))
  {
    AnswerIsLive(nm, order0, q, 0, None);
  }

  lemma NothingCleaned(w: Walk)
    ensures Doomed(w.path[..0], w.purge) == {}
    ensures Minus(w.order0, {}) == w.order0 && Minus(w.lru0, {}) == w.lru0
  {
    MinusNothing(w.order0, {});
    MinusNothing(w.lru0, {});
  }

  /** The history of a lookup for q0: the table it started from, what it has used and removed. */
  datatype Chase = Chase(order0: seq<Entry>, used0: seq<Entry>, q0: Query, used: seq<Entry>, gone: set<Entry>)

  /** The lookup has come to q after some hops; `last` is the CNAME that led there. */
  ghost predicate Chased(nm: Naming, c: Chase, q: Query, hops: nat, last: Option<Entry>) {
    && q == c.q0.(name := q.name)
    && FlatFind(nm, c.order0, q, hops, last) == FlatFind(nm, c.order0, c.q0, 0, None)
    && c.used + Used(nm, c.order0, q, hops) == Used(nm, c.order0, c.q0, 0)
    && c.gone + SweptBy(nm, c.order0, q, hops) == SweptBy(nm, c.order0, c.q0, 0)
    && (forall e | e in c.gone :: Expired(e, c.q0))
    && (forall e | e in c.used :: !Expired(e, c.q0))
  }

  /** The history after the bucket of q has been scanned. */
  ghost function Advance(nm: Naming, c: Chase, q: Query): Chase {
    var m := FirstMatch(nm, c.order0, q);
    c.(used := if m.None? then c.used else c.used + [m.value], gone := c.gone + SweptHere(nm, c.order0, q))
  }

  /** The expired entries before the match in the bucket of q. */
  ghost function SweptHere(nm: Naming, order0: seq<Entry>, q: Query): set<Entry> {
    Swept(nm, InBucket(nm, order0, nm.hash(q.name)), q)
  }

  /** A pass over the buckets of a list that has lost `gone` removes and finds the same as a pass over the whole. */
  lemma SweepAgain(nm: Naming, order0: seq<Entry>, used0: seq<Entry>, used: seq<Entry>, gone: set<Entry>, q: Query)
    requires (forall e | e in gone :: Expired(e, q)) && (forall e | e in used :: !Expired(e, q))
    ensures var swept, gone' := SweptHere(nm, Minus(order0, gone), q), gone + SweptHere(nm, order0, q);
            && FirstMatch(nm, Minus(order0, gone), q) == FirstMatch(nm, order0, q)
            && Minus(Minus(order0, gone), swept) == Minus(order0, gone')
            && Minus(TouchAll(Minus(used0, gone), used), swept) == TouchAll(Minus(used0, gone'), used)
            && forall e | e in gone' :: Expired(e, q)
  {
    var swept := SweptHere(nm, Minus(order0, gone), q);
    FirstMatchMinus(nm, order0, gone, q);
    BucketSweptMinus(nm, order0, gone, q);
    assert gone + swept == gone + SweptHere(nm, order0, q);
    MinusTwice(order0, gone, swept);
    MinusTwice(used0, gone, swept);
    TouchAllMinus(Minus(used0, gone), used, swept);
  }

  /** What a finished lookup has answered, used and removed. */
  ghost predicate Finished(nm: Naming, c: Chase, a: Answer) {
    && FlatFind(nm, c.order0, c.q0, 0, None) == a
    && Used(nm, c.order0, c.q0, 0) == c.used
    && SweptBy(nm, c.order0, c.q0, 0) == c.gone
  }

  lemma ChaseBegins(nm: Naming, c: Chase)
    requires c.used == [] && c.gone == {}
    ensures Chased(nm, c, c.q0, 0, None)
    ensures Minus(c.order0, {}) == c.order0 && TouchAll(Minus(c.used0, {}), []) == c.used0
  {
    UnionEmpty(SweptBy(nm, c.order0, c.q0, 0));
    ConcatEmpty(Used(nm, c.order0, c.q0, 0));
    MinusNothing(c.order0, {});
    MinusNothing(c.used0, {});
  }

  lemma ChaseEnds(nm: Naming, c: Chase, q: Query, hops: nat, last: Option<Entry>)
    requires Chased(nm, c, q, hops, last)
    requires Next(nm, c.order0, q).None? || hops > MAX_CNAME_CHAIN
    ensures var m := FirstMatch(nm, c.order0, q);
            Finished(nm, Advance(nm, c, q),
                     if m.None? then Answer(last, false)
                     else if m.value.rrType == q.rrType then Answer(m, false)
                     else Answer(None, true))
  {
    UnionEmpty(SweptHere(nm, c.order0, q));
  }

  lemma ChaseContinues(nm: Naming, c: Chase, q: Query, hops: nat, last: Option<Entry>)
    requires Chased(nm, c, q, hops, last)
    requires Next(nm, c.order0, q).Some? && hops <= MAX_CNAME_CHAIN
    ensures var m := FirstMatch(nm, c.order0, q);
            Chased(nm, Advance(nm, c, q), q.(name := Target(m.value)), hops + 1, m)
  {
    UsedContinues(nm, c, q, hops);
    SweptContinues(nm, c, q, hops);
  }

  lemma UsedContinues(nm: Naming, c: Chase, q: Query, hops: nat)
    requires Next(nm, c.order0, q).Some? && hops <= MAX_CNAME_CHAIN
    ensures var m, q' := FirstMatch(nm, c.order0, q).value, Next(nm, c.order0, q).value;
            c.used + Used(nm, c.order0, q, hops) == (c.used + [m]) + Used(nm, c.order0, q', hops + 1)
  {
    var m, q' := FirstMatch(nm, c.order0, q).value, Next(nm, c.order0, q).value;
    ConcatAssociative(c.used, [m], Used(nm, c.order0, q', hops + 1));
  }

  lemma SweptContinues(nm: Naming, c: Chase, q: Query, hops: nat)
    requires Next(nm, c.order0, q).Some? && hops <= MAX_CNAME_CHAIN
    ensures var here, q' := SweptHere(nm, c.order0, q), Next(nm, c.order0, q).value;
            c.gone + SweptBy(nm, c.order0, q, hops) == (c.gone + here) + SweptBy(nm, c.order0, q', hops + 1)
  {
    UnionAssociative(c.gone, SweptHere(nm, c.order0, q), SweptBy(nm, c.order0, Next(nm, c.order0, q).value, hops + 1));
  }

  lemma {:induction false} TouchAllSnoc(l: seq<Entry>, used: seq<Entry>, e: Entry)
    ensures TouchAll(l, used + [e]) == Touch(TouchAll(l, used), e)
    decreases |used|
  {
    if used == [] {
      assert used + [e] == [e];
      assert TouchAll(Touch(l, e), []) == Touch(l, e);
    } else {
      assert (used + [e])[1..] == used[1..] + [e];
      TouchAllSnoc(Touch(l, used[0]), used[1..], e);
    }
  }

  lemma {:induction false} TouchAllMinus(l: seq<Entry>, used: seq<Entry>, gone: set<Entry>)
    requires forall e | e in used :: e !in gone
    ensures Minus(TouchAll(l, used), gone) == TouchAll(Minus(l, gone), used)
    decreases |used|
  {
    if used != [] {
      TouchMinus(l, used[0], gone);
      TouchAllMinus(Touch(l, used[0]), used[1..], gone);
    }
  }

  /** The scan of a bucket of order0 has reached i without a hit and has removed `gone`. */
  ghost predicate Scanned(nm: Naming, order0: seq<Entry>, bucket: seq<Entry>, i: nat, q: Query, gone: set<Entry>)
    requires i <= |bucket|
  {
    && gone + Swept(nm, bucket[i..], q) == Swept(nm, bucket, q)
    && FirstMatch(nm, bucket[i..], q) == FirstMatch(nm, bucket, q)
    && Distinct(bucket)
    && (forall e | e in bucket :: e in order0)
    && (forall e | e in gone :: e in bucket[..i])
  }

  lemma ScanBegins(nm: Naming, order0: seq<Entry>, used0: seq<Entry>, q: Query)
    requires GoodNaming(nm) && Distinct(order0) && forall e | e in order0 :: WellFormed(e)
    ensures var bucket := InBucket(nm, order0, nm.hash(q.name));
            Scanned(nm, order0, bucket, 0, q, {}) && FirstMatch(nm, bucket, q) == FirstMatch(nm, order0, q)
    ensures Minus(order0, {}) == order0 && Minus(used0, {}) == used0
  {
    var bucket := InBucket(nm, order0, nm.hash(q.name));
    BucketScan(nm, order0, q);
    InBucketDistinct(nm, order0, nm.hash(q.name));
    MinusNothing(order0, {});
    MinusNothing(used0, {});
    assert bucket[0..] == bucket;
    forall e | e in bucket
      ensures e in order0
    {}
  }

  lemma ScanEnds(nm: Naming, order0: seq<Entry>, bucket: seq<Entry>, q: Query, gone: set<Entry>)
    requires Scanned(nm, order0, bucket, |bucket|, q, gone)
    ensures FirstMatch(nm, bucket, q) == None && gone == Swept(nm, bucket, q)
  {
    assert Swept(nm, bucket[|bucket|..], q) == {};
    UnionEmpty(gone);
  }

  lemma ScanStep(nm: Naming, order0: seq<Entry>, bucket: seq<Entry>, i: nat, q: Query, gone: set<Entry>)
    requires i < |bucket| && Scanned(nm, order0, bucket, i, q, gone)
    ensures bucket[i] in Minus(order0, gone)
    ensures Expired(bucket[i], q) ==> Scanned(nm, order0, bucket, i + 1, q, gone + {bucket[i]})
    ensures Hits(nm, bucket[i], q) ==> FirstMatch(nm, bucket, q) == Some(bucket[i]) && gone == Swept(nm, bucket, q)
    ensures !Expired(bucket[i], q) && !Hits(nm, bucket[i], q) ==> Scanned(nm, order0, bucket, i + 1, q, gone)
  {
    DistinctAt(bucket, i);
    assert bucket[i..][1..] == bucket[i + 1..];
    assert bucket[..i + 1] == bucket[..i] + [bucket[i]];
    var rest := Swept(nm, bucket[i + 1..], q);
    UnionAssociative(gone, {bucket[i]}, rest);
    UnionEmpty(rest);
    UnionEmpty(gone);
  }

  lemma {:induction false} InBucketDistinct(nm: Naming, s: seq<Entry>, h: nat)
    requires Distinct(s)
    ensures Distinct(InBucket(nm, s, h))
  {
    if s != [] {
      InBucketDistinct(nm, s[1..], h);
      var t := InBucket(nm, s[1..], h);
      if nm.hash(s[0].name) == h {
        assert InBucket(nm, s, h)[1..] == t;
      } else {
        assert InBucket(nm, s, h) == t;
      }
    }
  }
}
