/**
  The two circular lists threaded through every entry of the DNS cache, on real pointers: the
  bucket of its name and the last-used list.  The three steps by which the cache changes its
  lists (taking an entry out, adding one, marking one used) rewire both, and afterwards the
  pointers say again what the sequences of DnsCache say.
 */
module CacheRings {
  import opened CaseHash
  import opened DnsTable
  import opened DnsCache
  import S = Sequences
  import CircularList

  type Link = CircularList.Link

  /** The two pairs of link fields of an entry. */
  datatype Thread = HashList | UsedList

  function LinkOf(t: Thread, e: Entry): Link {
    if t.HashList? then e.link else e.lastUsedLink
  }

  function Links(t: Thread, s: seq<Entry>): seq<Link> {
    seq(|s|, i requires 0 <= i < |s| => LinkOf(t, s[i]))
  }

  ghost function Nodes(t: Thread, es: set<Entry>): set<Link> {
    set e | e in es :: LinkOf(t, e)
  }

  lemma LinksIn(t: Thread, s: seq<Entry>, x: Link) returns (e: Entry)
    requires x in Links(t, s)
    ensures e in s && x == LinkOf(t, e)
  {
    var i :| 0 <= i < |s| && Links(t, s)[i] == x;
    e := s[i];
  }

  /** No link field is that of another entry, another list or a head. */
  ghost predicate Own(es: set<Entry>, heads: seq<Link>, used: Link) {
    && (forall e, f, t, u | e in es && f in es && LinkOf(t, e) == LinkOf(u, f) :: e == f && t == u)
    && (forall e, t | e in es :: LinkOf(t, e) !in heads && LinkOf(t, e) != used)
    && (forall i, j | 0 <= i < j < |heads| :: heads[i] != heads[j])
    && used !in heads
  }

  // ----- One list -----

  lemma {:induction false} MinusAt(s: seq<Entry>, k: nat)
    requires S.Distinct(s) && k < |s|
    ensures S.Minus(s, {s[k]}) == s[..k] + s[k + 1..]
  {
    if k == 0 {
      S.MinusNothing(s[1..], {s[0]});
    } else {
      MinusAt(s[1..], k - 1);
      assert s[1..][k - 1] == s[k] && s[1..][k..] == s[k + 1..];
    }
  }

  /** An entry that is used goes to the end of the last-used list, and the others keep their order. */
  lemma TouchAt(s: seq<Entry>, k: nat)
    requires S.Distinct(s) && k < |s|
    ensures Touch(s, s[k]) == s[..k] + s[k + 1..] + [s[k]]
  {
    MinusAt(s, k);
  }

  /** `clist_rm` */
  method TakeOut(head: Link, t: Thread, e: Entry, ghost s: seq<Entry>)
    requires CircularList.Ring(head, Links(t, s)) && S.Distinct(s) && e in s
    modifies head, Links(t, s)
    ensures CircularList.Ring(head, Links(t, S.Minus(s, {e})))
  {
    ghost var k :| 0 <= k < |s| && s[k] == e;
    ghost var links := Links(t, s);
    var x := LinkOf(t, e);
    MinusAt(s, k);
    CircularList.Follow(head, links, k);
    CircularList.Follow(head, links, k + 1);
    CircularList.RemoveSublist(head, links, x, x, k, k + 1);
    assert links[..k] + links[k + 1..] == Links(t, S.Minus(s, {e}));
  }

  /** `clist_append` */
  method PutLast(head: Link, t: Thread, e: Entry, ghost s: seq<Entry>)
    requires CircularList.Ring(head, Links(t, s)) && LinkOf(t, e) !in [head] + Links(t, s)
    modifies head, Links(t, s), LinkOf(t, e)
    ensures CircularList.Ring(head, Links(t, s + [e]))
  {
    ghost var links := Links(t, s);
    var x := LinkOf(t, e);
    CircularList.Follow(head, links, |links|);
    CircularList.AppendSublist(head, links, x, x, [x]);
    assert links + [x] == Links(t, s + [e]);
  }

  // ----- All lists -----

  /** The heads of the buckets and of the last-used list. */
  class Rings {
    const heads: seq<Link>
    const used: Link
    ghost var known: set<Entry>      // the entries whose links may be rewired

    /** `init_dns_cache`: every list is empty. */
    constructor ()
      ensures Threads(seq(HASH_SIZE, _ => []), []) && known == {}
      ensures fresh(Memory(HashList)) && fresh(Memory(UsedList))
    {
      var hs: seq<Link> := [];
      while |hs| < HASH_SIZE
        invariant |hs| <= HASH_SIZE && forall h | 0 <= h < |hs| :: fresh(hs[h]) && CircularList.Ring(hs[h], [])
        invariant forall i, j | 0 <= i < j < |hs| :: hs[i] != hs[j]
      {
        var head := new CircularList.Link();
        hs := hs + [head];
      }
      var u := new CircularList.Link();
      heads, used, known := hs, u, {};
    }

    ghost function Memory(t: Thread): set<Link>
      reads this
    {
      Nodes(t, known) + if t.HashList? then set x | x in heads else {used}
    }

    ghost predicate Separate()
      reads this
    {
      |heads| == HASH_SIZE && Own(known, heads, used)
    }

    /** The pointers of every list are those of the sequence of its entries. */
    ghost predicate Threads(buckets: seq<seq<Entry>>, lastUsed: seq<Entry>)
      reads this, Memory(HashList), Memory(UsedList)
    {
      BucketsThreaded(buckets) && UsedThreaded(lastUsed)
    }

    ghost predicate BucketsThreaded(buckets: seq<seq<Entry>>)
      reads this, Memory(HashList)
    {
      && Separate() && |buckets| == HASH_SIZE
      && forall h | 0 <= h < HASH_SIZE :: BucketThreaded(buckets, h)
    }

    ghost predicate BucketThreaded(buckets: seq<seq<Entry>>, h: nat)
      requires h < |buckets| && h < |heads|
      reads this, Memory(HashList)
    {
      (forall e | e in buckets[h] :: e in known) && RingOver(heads[h], HashList, buckets[h])
    }

    ghost predicate UsedThreaded(lastUsed: seq<Entry>)
      reads this, Memory(UsedList)
    {
      Separate() && (forall e | e in lastUsed :: e in known) && RingOver(used, UsedList, lastUsed)
    }

    ghost predicate RingOver(head: Link, t: Thread, s: seq<Entry>)
      requires forall e | e in s :: e in known
      requires head in Memory(t)
      reads this, Memory(t)
    {
      LinksKnown(t, s);
      CircularList.Ring(head, Links(t, s))
    }

    lemma LinksKnown(t: Thread, s: seq<Entry>)
      requires forall e | e in s :: e in known
      ensures forall x | x in Links(t, s) :: x in Nodes(t, known)
    {
      forall x | x in Links(t, s)
        ensures x in Nodes(t, known)
      {
        var e := LinksIn(t, s, x);
      }
    }

    lemma MemoriesApart()
      requires Separate()
      ensures Memory(HashList) !! Memory(UsedList)
    {
      forall e, f | e in known && f in known
        ensures LinkOf(HashList, e) != LinkOf(UsedList, f)
      {}
    }

    /** The nodes of two buckets are different. */
    lemma BucketsApart(buckets: seq<seq<Entry>>, h: nat, k: nat)
      requires Separate() && |buckets| == HASH_SIZE && h < HASH_SIZE && k < HASH_SIZE && h != k
      requires forall e | e in buckets[h] || e in buckets[k] :: e in known
      requires forall e | e in buckets[h] :: e !in buckets[k]
      ensures heads[k] != heads[h] && heads[k] !in Links(HashList, buckets[h])
      ensures forall x | x in Links(HashList, buckets[k]) :: x != heads[h] && x !in Links(HashList, buckets[h])
    {
      forall x | x in Links(HashList, buckets[k])
        ensures x != heads[h] && x !in Links(HashList, buckets[h])
      {
        var e := LinksIn(HashList, buckets[k], x);
        if x in Links(HashList, buckets[h]) {
          var f := LinksIn(HashList, buckets[h], x);
        }
      }
      if heads[k] in Links(HashList, buckets[h]) {
        var f := LinksIn(HashList, buckets[h], heads[k]);
      }
    }

    lemma OneBucketNew(buckets: seq<seq<Entry>>, after: seq<seq<Entry>>, h: nat)
      requires Separate() && |buckets| == |after| == HASH_SIZE && h < HASH_SIZE
      requires forall k | 0 <= k < HASH_SIZE && k != h :: after[k] == buckets[k] && BucketThreaded(buckets, k)
      requires BucketThreaded(after, h)
      ensures BucketsThreaded(after)
    {
      forall k | 0 <= k < HASH_SIZE
        ensures BucketThreaded(after, k)
      {
        if k != h {
          assert BucketThreaded(buckets, k);
        }
      }
    }

    /** `clist_rm(e, next, prev)` */
    method LeaveBucket(e: Entry, h: nat, ghost buckets: seq<seq<Entry>>)
      requires BucketsThreaded(buckets) && Apart(buckets) && h < HASH_SIZE && e in buckets[h] && S.Distinct(buckets[h])
      modifies Memory(HashList)
      ensures BucketsThreaded(buckets[h := S.Minus(buckets[h], {e})])
    {
      assert BucketThreaded(buckets, h);
      LinksKnown(HashList, buckets[h]);
      TakeOut(heads[h], HashList, e, buckets[h]);
      forall k | 0 <= k < HASH_SIZE && k != h
        ensures BucketThreaded(buckets, k)
      {
        assert old(BucketThreaded(buckets, k));
        BucketsApart(buckets, h, k);
        ghost var c := CircularList.Circle(heads[k], Links(HashList, buckets[k]));
        assert old(CircularList.Linked(c));
        forall i | 0 <= i < |c|
          ensures c[i].next == old(c[i].next) && c[i].prev == old(c[i].prev)
        {
          assert c[i] == heads[k] || c[i] in Links(HashList, buckets[k]);
        }
        assert CircularList.Linked(c);
      }
      OneBucketNew(buckets, buckets[h := S.Minus(buckets[h], {e})], h);
    }

    /** `clist_append(&dns_hash[h], e, next, prev)` */
    method EnterBucket(e: Entry, h: nat, ghost buckets: seq<seq<Entry>>)
      requires BucketsThreaded(buckets) && Apart(buckets) && h < HASH_SIZE && e in known
      requires forall k | 0 <= k < HASH_SIZE :: e !in buckets[k]
      modifies Memory(HashList)
      ensures BucketsThreaded(buckets[h := buckets[h] + [e]])
    {
      assert BucketThreaded(buckets, h);
      LinksKnown(HashList, buckets[h]);
      NotLinked(HashList, e, buckets[h]);
      PutLast(heads[h], HashList, e, buckets[h]);
      forall k | 0 <= k < HASH_SIZE && k != h
        ensures BucketThreaded(buckets, k)
      {
        assert old(BucketThreaded(buckets, k));
        BucketsApart(buckets, h, k);
        NotLinked(HashList, e, buckets[k]);
        ghost var c := CircularList.Circle(heads[k], Links(HashList, buckets[k]));
        assert old(CircularList.Linked(c));
        forall i | 0 <= i < |c|
          ensures c[i].next == old(c[i].next) && c[i].prev == old(c[i].prev)
        {
          assert c[i] == heads[k] || c[i] in Links(HashList, buckets[k]);
        }
        assert CircularList.Linked(c);
      }
      OneBucketNew(buckets, buckets[h := buckets[h] + [e]], h);
    }

    lemma NotLinked(t: Thread, e: Entry, s: seq<Entry>)
      requires Separate() && e in known && e !in s && forall f | f in s :: f in known
      ensures LinkOf(t, e) !in Links(t, s)
    {
      if LinkOf(t, e) in Links(t, s) {
        var f := LinksIn(t, s, LinkOf(t, e));
      }
    }

    /** `clist_rm(&e->last_used_lst, next, prev)` */
    method LeaveUsed(e: Entry, ghost lastUsed: seq<Entry>)
      requires UsedThreaded(lastUsed) && e in lastUsed && S.Distinct(lastUsed)
      modifies Memory(UsedList)
      ensures UsedThreaded(S.Minus(lastUsed, {e}))
    {
      LinksKnown(UsedList, lastUsed);
      TakeOut(used, UsedList, e, lastUsed);
    }

    /** `clist_append(dns_last_used_lst, &e->last_used_lst, next, prev)` */
    method EnterUsed(e: Entry, ghost lastUsed: seq<Entry>)
      requires UsedThreaded(lastUsed) && e in known && e !in lastUsed
      modifies Memory(UsedList)
      ensures UsedThreaded(lastUsed + [e])
    {
      LinksKnown(UsedList, lastUsed);
      NotLinked(UsedList, e, lastUsed);
      PutLast(used, UsedList, e, lastUsed);
    }

    /** The list half of `_dns_hash_remove`. */
    method Remove(e: Entry, h: nat, ghost buckets: seq<seq<Entry>>, ghost lastUsed: seq<Entry>)
      requires Threads(buckets, lastUsed) && Apart(buckets) && h < HASH_SIZE && e in buckets[h] && e in lastUsed
      requires S.Distinct(buckets[h]) && S.Distinct(lastUsed)
      modifies Memory(HashList), Memory(UsedList)
      ensures Threads(buckets[h := S.Minus(buckets[h], {e})], S.Minus(lastUsed, {e}))
    {
      MemoriesApart();
      LeaveBucket(e, h, buckets);
      LeaveUsed(e, lastUsed);
    }

    /** The list half of `dns_cache_add`. */
    method Insert(e: Entry, h: nat, ghost buckets: seq<seq<Entry>>, ghost lastUsed: seq<Entry>)
      requires Threads(buckets, lastUsed) && Apart(buckets) && h < HASH_SIZE && e in known && e !in lastUsed
      requires forall k | 0 <= k < HASH_SIZE :: e !in buckets[k]
      modifies Memory(HashList), Memory(UsedList)
      ensures Threads(buckets[h := buckets[h] + [e]], lastUsed + [e])
    {
      MemoriesApart();
      EnterBucket(e, h, buckets);
      EnterUsed(e, lastUsed);
    }

    /** The list half of a hit: the entry moves to the end of the last-used list. */
    method Use(e: Entry, ghost buckets: seq<seq<Entry>>, ghost lastUsed: seq<Entry>)
      requires Threads(buckets, lastUsed) && e in lastUsed && S.Distinct(lastUsed)
      modifies Memory(UsedList)
      ensures Threads(buckets, Touch(lastUsed, e))
    {
      MemoriesApart();
      LeaveUsed(e, lastUsed);
      EnterUsed(e, S.Minus(lastUsed, {e}));
    }
  }

  /** No entry is in two buckets. */
  ghost predicate Apart(buckets: seq<seq<Entry>>) {
    forall h, k, e | 0 <= h < |buckets| && 0 <= k < |buckets| && h != k && e in buckets[h] :: e !in buckets[k]
  }

  // ----- The steps of the cache -----

  lemma CoherentLists(nm: Naming, buckets: seq<seq<Entry>>, lastUsed: seq<Entry>, memUsed: int, order: seq<Entry>)
    requires Coherent(nm, buckets, lastUsed, memUsed, order)
    ensures Apart(buckets) && forall h | 0 <= h < HASH_SIZE :: S.Distinct(buckets[h])
  {
    forall h | 0 <= h < HASH_SIZE
      ensures S.Distinct(buckets[h])
    {
      InBucketDistinct(nm, order, h);
    }
  }

  /** The pointers follow when an entry is taken out. */
  method Unthread(r: Rings, e: Entry, ghost nm: Naming, ghost ls: Lists, h: nat)
    requires InOrder(nm, ls) && e in ls.order && h == nm.hash(e.name) && r.Threads(ls.buckets, ls.lastUsed)
    modifies r.Memory(HashList), r.Memory(UsedList)
    ensures r.Threads(Unlinked(nm, ls, e).buckets, Unlinked(nm, ls, e).lastUsed)
  {
    CoherentLists(nm, ls.buckets, ls.lastUsed, ls.memUsed, ls.order);
    r.Remove(e, h, ls.buckets, ls.lastUsed);
  }

  /** The pointers follow when an entry is added. */
  method Rethread(r: Rings, e: Entry, ghost nm: Naming, ghost ls: Lists, h: nat)
    requires InOrder(nm, ls) && e !in ls.order && e in r.known && h == nm.hash(e.name)
             && r.Threads(ls.buckets, ls.lastUsed)
    modifies r.Memory(HashList), r.Memory(UsedList)
    ensures r.Threads(Appended(nm, ls, e).buckets, Appended(nm, ls, e).lastUsed)
  {
    CoherentLists(nm, ls.buckets, ls.lastUsed, ls.memUsed, ls.order);
    r.Insert(e, h, ls.buckets, ls.lastUsed);
  }

  /** The pointers follow when an entry is used. */
  method Reuse(r: Rings, e: Entry, ghost nm: Naming, ghost ls: Lists)
    requires InOrder(nm, ls) && e in ls.order && r.Threads(ls.buckets, ls.lastUsed)
    modifies r.Memory(UsedList)
    ensures r.Threads(Retouched(ls, e).buckets, Retouched(ls, e).lastUsed)
  {
    r.Use(e, ls.buckets, ls.lastUsed);
  }

  /** A new entry has links of its own, and those of the others stay apart. */
  method Know(r: Rings, e: Entry, ghost buckets: seq<seq<Entry>>, ghost lastUsed: seq<Entry>)
    requires r.Threads(buckets, lastUsed) && e.link != e.lastUsedLink && e !in r.known
    requires {e.link, e.lastUsedLink} !! r.Memory(HashList) + r.Memory(UsedList)
    modifies r`known
    ensures r.Threads(buckets, lastUsed) && r.known == old(r.known) + {e}
  {
    r.known := r.known + {e};
    forall h | 0 <= h < HASH_SIZE
      ensures r.BucketThreaded(buckets, h)
    {
      assert old(r.BucketThreaded(buckets, h));
    }
    assert r.Separate();
  }

  method Rewire(r: Rings, st: Step, nm: Naming, ghost ls: Lists)
    requires InOrder(nm, ls) && Possible(ls, st) && st.e in r.known && r.Threads(ls.buckets, ls.lastUsed)
    requires nm.hash(st.e.name) < |ls.buckets|
    modifies r.Memory(HashList), r.Memory(UsedList)
    ensures r.Threads(Stepped(nm, ls, st).buckets, Stepped(nm, ls, st).lastUsed)
  {
    match st
    case Out(e) => Unthread(r, e, nm, ls, nm.hash(e.name));
    case In(e) => Rethread(r, e, nm, ls, nm.hash(e.name));
    case Touched(e) => Reuse(r, e, nm, ls);
  }

  /** After any run of steps the pointers of both lists of every entry are those of the sequences. */
  method Follow(r: Rings, steps: seq<Step>, nm: Naming, ghost ls: Lists, ghost ls': Lists)
    requires InOrder(nm, ls) && r.Threads(ls.buckets, ls.lastUsed) && IsRun(nm, ls, steps, ls')
    requires forall st | st in steps :: st.e in r.known
    modifies r.Memory(HashList), r.Memory(UsedList)
    ensures InOrder(nm, ls') && r.Threads(ls'.buckets, ls'.lastUsed)
  {
    ghost var now := ls;
    var i := 0;
    assert steps[0..] == steps;
    while i < |steps|
      invariant 0 <= i <= |steps| && InOrder(nm, now) && r.Threads(now.buckets, now.lastUsed)
      invariant IsRun(nm, now, steps[i..], ls')
    {
      assert steps[i..][0] == steps[i] && steps[i..][1..] == steps[i + 1..];
      assert steps[i] in steps;
      StepInOrder(nm, now, steps[i]);
      Rewire(r, steps[i], nm, now);
      now := Stepped(nm, now, steps[i]);
      i := i + 1;
    }
  }

  /**
    Whatever has been done with a cache: the steps that its operations have taken, done on the
    pointers of empty rings, leave the pointers of its lists as they are now.
   */
  method FollowCache(c: Cache, r: Rings, steps: seq<Step>)
    requires c.Linked() && steps == c.past && r.Threads(NoLists().buckets, [])
             && forall st | st in steps :: st.e in r.known
    modifies r.Memory(HashList), r.Memory(UsedList)
    ensures r.Threads(c.buckets, c.lastUsed)
  {
    NothingInOrder(c.nm);
    Follow(r, steps, c.nm, NoLists(), c.Now());
  }

  lemma NothingInOrder(nm: Naming)
    requires GoodNaming(nm)
    ensures InOrder(nm, NoLists())
  {}
}
