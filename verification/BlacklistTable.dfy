/**
  The table of dst_blacklist.c, changed in place.  `ref` is the plain list that never purges; the
  table agrees with it from `clock` on, and the clock never runs backwards.
 */
module BlacklistTable {
  import opened Options
  import opened Blacklist
  import Laws = BlacklistLaws

  const E_OUT_OF_MEM := -2

  // ----- Accounting -----

  /** DST_BLST_ENTRY_SIZE: 12 bytes more for an IPv6 address. */
  function Size(e: Entry, base: nat): nat {
    if IsIpv6 in e.flags then base + 12 else base
  }

  function SizeOf(b: seq<Entry>, base: nat): nat {
    if b == [] then 0 else Size(b[0], base) + SizeOf(b[1..], base)
  }

  function SizeOfAll(buckets: seq<seq<Entry>>, base: nat): nat {
    if buckets == [] then 0 else SizeOf(buckets[0], base) + SizeOfAll(buckets[1..], base)
  }

  lemma {:induction false} SizeUpdate(buckets: seq<seq<Entry>>, h: nat, b: seq<Entry>, base: nat)
    requires h < |buckets|
    ensures SizeOfAll(buckets[h := b], base) == SizeOfAll(buckets, base) - SizeOf(buckets[h], base) + SizeOf(b, base)
  {
    if h == 0 {
      assert buckets[h := b][1..] == buckets[1..];
    } else {
      assert buckets[h := b][1..] == buckets[1..][h - 1 := b];
      SizeUpdate(buckets[1..], h - 1, b, base);
    }
  }

  function Without(b: seq<Entry>, i: nat): seq<Entry>
    requires i < |b|
  {
    b[..i] + b[i + 1..]
  }

  lemma {:induction false} SizeWithout(b: seq<Entry>, i: nat, base: nat)
    requires i < |b|
    ensures SizeOf(Without(b, i), base) == SizeOf(b, base) - Size(b[i], base)
  {
    if i == 0 {
      assert Without(b, i) == b[1..];
    } else {
      assert Without(b, i)[1..] == Without(b[1..], i - 1);
      SizeWithout(b[1..], i - 1, base);
    }
  }

  lemma {:induction false} SizeReplace(b: seq<Entry>, i: nat, e: Entry, base: nat)
    requires i < |b| && Size(e, base) == Size(b[i], base)
    ensures SizeOf(b[i := e], base) == SizeOf(b, base)
  {
    if i == 0 {
      assert b[i := e][1..] == b[1..];
    } else {
      assert b[i := e][1..] == b[1..][i - 1 := e];
      SizeReplace(b[1..], i - 1, e, base);
    }
  }

  /** The counters are the lengths of the buckets and the memory their sizes. */
  ghost predicate Accounted(buckets: seq<seq<Entry>>, counts: seq<int>, memUsed: int, base: nat) {
    && |counts| == |buckets|
    && (forall h | 0 <= h < |buckets| :: counts[h] == |buckets[h]|)
    && memUsed == SizeOfAll(buckets, base)
  }

  /** The number of entries. */
  function CountAll(buckets: seq<seq<Entry>>): nat {
    if buckets == [] then 0 else |buckets[0]| + CountAll(buckets[1..])
  }

  lemma {:induction false} CountUpdate(buckets: seq<seq<Entry>>, h: nat, b: seq<Entry>)
    requires h < |buckets|
    ensures CountAll(buckets[h := b]) == CountAll(buckets) - |buckets[h]| + |b|
  {
    if h == 0 {
      assert buckets[h := b][1..] == buckets[1..];
    } else {
      assert buckets[h := b][1..] == buckets[1..][h - 1 := b];
      CountUpdate(buckets[1..], h - 1, b);
    }
  }

  // ----- Going round the buckets -----

  /** The bucket with this number, counted round and round. */
  function Slot(k: nat): (h: nat)
    ensures h < HASH_SIZE && h == k % HASH_SIZE
  {
    k % HASH_SIZE
  }

  /** How many of the buckets from..until, counted round and round, are not empty. */
  function NonEmpty(buckets: seq<seq<Entry>>, from: nat, until: nat): nat
    requires |buckets| == HASH_SIZE
    decreases until
  {
    if until <= from then 0
    else if buckets[Slot(until - 1)] == [] then NonEmpty(buckets, from, until - 1)
    else NonEmpty(buckets, from, until - 1) + 1
  }

  /** The buckets from `until` to the end of the round are as they were. */
  ghost predicate Unvisited(before: seq<seq<Entry>>, buckets: seq<seq<Entry>>, from: nat, until: nat) {
    && |before| == |buckets| == HASH_SIZE
    && forall k | until <= k < from + HASH_SIZE :: buckets[k % HASH_SIZE] == before[k % HASH_SIZE]
  }

  lemma VisitsNext(before: seq<seq<Entry>>, buckets: seq<seq<Entry>>, from: nat, h: nat)
    requires from <= h < from + HASH_SIZE && Unvisited(before, buckets, from, h)
    ensures buckets[h % HASH_SIZE] == before[h % HASH_SIZE] && Unvisited(before, buckets, from, h + 1)
    ensures NonEmpty(before, from, h + 1) == NonEmpty(before, from, h) + if buckets[h % HASH_SIZE] != [] then 1 else 0
  {}

  /** A bucket that has been visited may change. */
  lemma StillUnvisited(before: seq<seq<Entry>>, buckets: seq<seq<Entry>>, after: seq<seq<Entry>>, from: nat, h: nat)
    requires from <= h < from + HASH_SIZE && Unvisited(before, buckets, from, h + 1) && |after| == HASH_SIZE
    requires after == buckets[h % HASH_SIZE := after[h % HASH_SIZE]]
    ensures Unvisited(before, after, from, h + 1)
  {
    forall k | h + 1 <= k < from + HASH_SIZE
      ensures after[k % HASH_SIZE] == before[k % HASH_SIZE]
    {
      OtherBucket(h, k);
      assert buckets[k % HASH_SIZE] == before[k % HASH_SIZE];
    }
  }

  lemma OtherBucket(h: nat, k: nat)
    requires h < k < h + HASH_SIZE
    ensures h % HASH_SIZE != k % HASH_SIZE
  {
    var q, r := h / HASH_SIZE, k / HASH_SIZE;
    assert h == q * HASH_SIZE + h % HASH_SIZE && k == r * HASH_SIZE + k % HASH_SIZE;
  }

  // ----- Where a scan stops -----

  /** The first i entries of a bucket are unexpired and not the one searched for. */
  ghost predicate Passed(b: seq<Entry>, d: Dst, now: int, i: nat) {
    i <= |b| && forall j | 0 <= j < i :: !Expired(b[j], now) && !Hits(b[j], d, now)
  }

  lemma UpdateBehind(b: seq<Entry>, i: nat, e: Entry)
    requires 0 < i < |b|
    ensures b[i := e] == [b[0]] + b[1..][i - 1 := e]
  {}

  lemma WithoutBehind(b: seq<Entry>, i: nat)
    requires 0 < i < |b|
    ensures Without(b, i) == [b[0]] + Without(b[1..], i - 1)
  {}

  lemma {:induction false} StopsAt(b: seq<Entry>, d: Dst, now: int, i: nat, flags: set<Flag>, expire: int)
    requires Passed(b, d, now, i) && (i == |b| || Hits(b[i], d, now))
    ensures i == |b| ==> LookUp(b, d, now) == None
    ensures i < |b| ==> LookUp(b, d, now) == Some(b[i].flags)
    ensures i < |b| ==> Renew(b, d, now, flags, expire) == b[i := b[i].(flags := b[i].flags + flags, expire := expire)]
    ensures i < |b| ==> Delete(b, d, now) == Without(b, i)
  {
    if i > 0 {
      StopsAt(b[1..], d, now, i - 1, flags, expire);
      if i < |b| {
        var e := b[i].(flags := b[i].flags + flags, expire := expire);
        UpdateBehind(b, i, e);
        WithoutBehind(b, i);
      }
    }
  }

  lemma {:induction false} DropExpired(b: seq<Entry>, i: nat, now: int)
    requires i < |b| && Expired(b[i], now)
    ensures Live(Without(b, i), now) == Live(b, now)
  {
    if i == 0 {
      assert Without(b, i) == b[1..];
    } else {
      assert Without(b, i)[1..] == Without(b[1..], i - 1);
      DropExpired(b[1..], i - 1, now);
    }
  }

  /** Dropping what expires by `until` cannot be seen at `now` exactly if it has expired by then. */
  lemma DropsUnseenExactly(now: int, until: int)
    ensures until <= now <==>
              forall b: seq<Entry>, i: nat | i < |b| && Expired(b[i], until) :: Live(Without(b, i), now) == Live(b, now)
  {
    if until <= now {
      forall b: seq<Entry>, i: nat | i < |b| && Expired(b[i], until)
        ensures Live(Without(b, i), now) == Live(b, now)
      {
        DropExpired(b, i, now);
      }
    } else {
      var b, i: nat := [Entry({}, PROTO_NONE, 0, [], until)], 0;
      assert Without(b, i) == [] && Live(b, now) == b + [];
      assert Expired(b[i], until) && Live(Without(b, i), now) != Live(b, now);
    }
  }

  class Table {
    const hash: Hash
    const base: nat                      // sizeof(struct dst_blst_entry)
    var buckets: seq<seq<Entry>>         // dst_blst_hash[].first
    var counts: seq<int>                 // dst_blst_hash[].entries
    var memUsed: int                     // *blst_mem_used
    var start: nat                       // where the cleaner goes on
    ghost var ref: seq<Entry>
    ghost var clock: int

    ghost predicate Valid()
      reads this
    {
      Agree(hash, buckets, ref, clock) && Accounted(buckets, counts, memUsed, base)
    }

    /** `init_dst_blacklist` */
    constructor (hash: Hash, base: nat, now: int)
      requires forall a, p :: hash(a, p) < HASH_SIZE
      ensures Valid() && ref == [] && clock == now && this.hash == hash && this.base == base && |buckets| == 1024
    {
      this.hash, this.base := hash, base;
      buckets, counts := seq(HASH_SIZE, _ => []), seq(HASH_SIZE, _ => 0);
      memUsed, start, ref, clock := 0, 0, [], now;
      new;
      NothingUsed(buckets, base);
    }

    /** `*crt=(*crt)->next` and the accounting: entry i leaves bucket h. */
    method Unlink(h: nat, i: nat)
      requires h < |buckets| && i < |buckets[h]| && Accounted(buckets, counts, memUsed, base)
      modifies `buckets, `counts, `memUsed
      ensures buckets == old(buckets)[h := Without(old(buckets)[h], i)]
      ensures Accounted(buckets, counts, memUsed, base)
      ensures memUsed == old(memUsed) - Size(old(buckets)[h][i], base)
    {
      var b, e := buckets[h], buckets[h][i];
      SizeWithout(b, i, base);
      SizeUpdate(buckets, h, Without(b, i), base);
      memUsed := memUsed - Size(e, base);
      counts := counts[h := counts[h] - 1];
      buckets := buckets[h := Without(b, i)];
    }

    /** An expired entry leaves, and nobody can tell. */
    method Purge(h: nat, i: nat)
      requires Valid() && h < HASH_SIZE && i < |buckets[h]| && Expired(buckets[h][i], clock)
      modifies `buckets, `counts, `memUsed
      ensures Valid()
      ensures buckets == old(buckets)[h := Without(old(buckets)[h], i)]
    {
      DropExpired(buckets[h], i, clock);
      Unlink(h, i);
    }

    /** The loop shared by the search and the deletion: drops expired entries up to the first match. */
    method Scan(h: nat, d: Dst, now: int) returns (i: nat)
      requires Valid() && h < HASH_SIZE && clock <= now
      modifies `buckets, `counts, `memUsed, `clock
      ensures Valid() && clock == now
      ensures Passed(buckets[h], d, now, i) && (i == |buckets[h]| || Hits(buckets[h][i], d, now))
    {
      AgreeLater(hash, buckets, ref, clock, now);
      clock := now;
      i := 0;
      while i < |buckets[h]|
        invariant Valid() && clock == now
        invariant Passed(buckets[h], d, now, i)
        decreases |buckets[h]| - i
      {
        if Expired(buckets[h][i], now) {
          Purge(h, i);
        } else if Matches(buckets[h][i], d) {
          return;
        } else {
          i := i + 1;
        }
      }
    }

    /** `_dst_blacklist_lst_find`: where the entry is, in its bucket; the answer is that of the plain list. */
    method LstFind(d: Dst, now: int) returns (i: nat)
      requires Valid() && clock <= now
      modifies `buckets, `counts, `memUsed, `clock
      ensures Valid() && clock == now
      ensures var b := buckets[hash(d.addr, d.port)];
              && Passed(b, d, now, i)
              && (if i == |b| then LookUp(ref, d, now) == None
                  else Hits(b[i], d, now) && LookUp(ref, d, now) == Some(b[i].flags))
    {
      var h := hash(d.addr, d.port);
      i := Scan(h, d, now);
      StopsAt(buckets[h], d, now, i, {}, 0);
      AnswerIsInBucket(hash, buckets, ref, d, now);
    }

    /** `dst_is_blacklisted_ip`: the flags, none if the destination is not listed. */
    method IsBlacklisted(d: Dst, now: int) returns (flags: set<Flag>)
      requires Valid() && clock <= now
      modifies `buckets, `counts, `memUsed, `clock
      ensures Valid() && clock == now
      ensures flags == match LookUp(ref, d, now) case None => {} case Some(f) => f
    {
      var h := hash(d.addr, d.port);
      if buckets[h] == [] {
        AgreeLater(hash, buckets, ref, clock, now);
        clock := now;
        AnswerIsInBucket(hash, buckets, ref, d, now);
        return {};
      }
      var i := LstFind(d, now);
      flags := if i < |buckets[h]| then buckets[h][i].flags else {};
    }

    /** `_dst_blacklist_del` */
    method Del(d: Dst, now: int) returns (deleted: bool)
      requires Valid() && clock <= now
      modifies `buckets, `counts, `memUsed, `clock, `ref
      ensures Valid() && clock == now
      ensures deleted <==> LookUp(old(ref), d, now).Some?
      ensures ref == if deleted then Delete(old(ref), d, now) else old(ref)
      ensures Laws.SameElsewhere(old(ref), ref, d)
    {
      var i := LstFind(d, now);
      var h := hash(d.addr, d.port);
      deleted := i < |buckets[h]|;
      if deleted {
        StopsAt(buckets[h], d, now, i, {}, 0);
        Laws.DeletionSpares(ref, d, now);
        DeleteAgrees(hash, buckets, ref, d, now);
        Unlink(h, i);
        ref := Delete(ref, d, now);
      }
    }

    /** One bucket of the cleaner: drops what expires by a given time, until little enough memory is used. */
    method CleanBucket(h: nat, until: int, target: int) returns (no: nat, reached: bool)
      requires Valid() && h < HASH_SIZE && until == clock
      modifies `buckets, `counts, `memUsed
      ensures Valid() && buckets == old(buckets)[h := buckets[h]]
      ensures no == |old(buckets)[h]| - |buckets[h]|
      ensures if reached then memUsed <= target else AllFresh(buckets[h], clock) && (no > 0 ==> memUsed > target)
    {
      no := 0;
      var i := 0;
      while i < |buckets[h]|
        invariant Valid() && buckets == old(buckets)[h := buckets[h]]
        invariant no == |old(buckets)[h]| - |buckets[h]|
        invariant i <= |buckets[h]| && AllFresh(buckets[h][..i], clock) && (no > 0 ==> memUsed > target)
        decreases |buckets[h]| - i
      {
        if Expired(buckets[h][i], until) {
          ghost var b := buckets[h];
          Purge(h, i);
          assert buckets[h][..i] == b[..i];
          no := no + 1;
          if memUsed <= target {
            return no, true;
          }
        } else {
          i := i + 1;
        }
      }
      assert buckets[h][..i] == buckets[h];
      reached := false;
    }

    /** The cleaner comes to one bucket, and reads the clock once more if the bucket was not empty. */
    method Visit(h: nat, target: int, delta: nat, timeout: int, ticks: nat -> int, r: nat, ghost from: nat,
                 ghost before: seq<seq<Entry>>)
      returns (no: nat, r': nat, stopped: bool)
      requires Valid() && Ticking(ticks) && clock == ticks(r) + delta && from <= h < from + HASH_SIZE
      requires Unvisited(before, buckets, from, h) && Swept(buckets, from, h, ticks(0) + delta)
      requires r == NonEmpty(before, from, h)
      modifies `buckets, `counts, `memUsed, `clock
      ensures Valid() && clock == ticks(r') + delta && r' == NonEmpty(before, from, h + 1)
      ensures no == CountAll(old(buckets)) - CountAll(buckets) && Unvisited(before, buckets, from, h + 1)
      ensures if stopped then memUsed <= target || ticks(r') - ticks(0) >= timeout
              else Swept(buckets, from, h + 1, ticks(0) + delta) && (r' == r || ticks(r') - ticks(0) < timeout)
    {
      ghost var was := buckets;
      var i := Slot(h);
      VisitsNext(before, buckets, from, h);
      no, r', stopped := 0, r, false;
      if buckets[i] != [] {
        var n, reached := CleanBucket(i, ticks(r) + delta, target);
        CountUpdate(was, i, buckets[i]);
        StillUnvisited(before, was, buckets, from, h);
        no, r' := n, r + 1;
        Advance(ticks(r') + delta);
        stopped := reached || ticks(r') - ticks(0) >= timeout;
      }
      if !stopped {
        SweptMore(was, buckets, from, h, ticks(0) + delta);
      }
    }

    /** The loop of the cleaner; it has been to the buckets up to `end`. */
    method GoRound(from: nat, target: int, delta: nat, timeout: int, ticks: nat -> int)
      returns (no: nat, stopped: bool, h: nat, ghost r: nat, ghost end: nat)
      requires Valid() && Ticking(ticks) && clock == ticks(0) + delta
      modifies `buckets, `counts, `memUsed, `clock
      ensures Valid() && clock == ticks(r) + delta && r == NonEmpty(old(buckets), from, end)
      ensures no == CountAll(old(buckets)) - CountAll(buckets)
      ensures end <= from + HASH_SIZE && (!stopped ==> end == from + HASH_SIZE)
      ensures if stopped then memUsed <= target || ticks(r) - ticks(0) >= timeout
              else Swept(buckets, from, end, ticks(0) + delta) && (r == 0 || ticks(r) - ticks(0) < timeout)
    {
      var t := 0;
      no, stopped, h := 0, false, from;
      end := from;
      while h < from + HASH_SIZE && !stopped
        invariant Valid() && from <= h <= from + HASH_SIZE && clock == ticks(t) + delta
        invariant no == CountAll(old(buckets)) - CountAll(buckets)
        invariant end <= from + HASH_SIZE && (!stopped ==> end == h)
        invariant t == NonEmpty(old(buckets), from, end) && Unvisited(old(buckets), buckets, from, end)
        invariant if stopped then memUsed <= target || ticks(t) - ticks(0) >= timeout
                  else Swept(buckets, from, h, ticks(0) + delta) && (t == 0 || ticks(t) - ticks(0) < timeout)
        decreases !stopped, from + HASH_SIZE - h
      {
        var n;
        n, t, stopped := Visit(h, target, delta, timeout, ticks, t, from, old(buckets));
        no := no + n;
        end := h + 1;
        if !stopped {
          h := h + 1;
        }
      }
      r := t;
    }

    /**
      `dst_blacklist_clean_expired`: goes round the buckets from where it left off, reading the
      clock after every bucket that is not empty.  It may stop early, at the memory target or
      when its time is up; if it does not, nothing is left that had expired when it began.
     */
    method CleanExpired(target: int, delta: nat, timeout: int, ticks: nat -> int)
      returns (no: nat, stopped: bool, ghost end: nat)
      requires Valid() && Ticking(ticks) && clock <= ticks(0)
      modifies `buckets, `counts, `memUsed, `start, `clock
      ensures Valid() && Reading(ticks, delta, clock)
      ensures !stopped ==> forall h | 0 <= h < HASH_SIZE :: AllFresh(buckets[h], ticks(0) + delta)
      ensures stopped ==> memUsed <= target || clock - delta - ticks(0) >= timeout
      ensures !stopped ==> clock == ticks(0) + delta || clock - delta - ticks(0) < timeout
      ensures no == CountAll(old(buckets)) - CountAll(buckets)
      ensures end <= old(start) + HASH_SIZE && clock == ticks(NonEmpty(old(buckets), old(start), end)) + delta
      ensures !stopped ==> end == old(start) + HASH_SIZE
    {
      Advance(ticks(0) + delta);
      var h;
      ghost var r;
      no, stopped, h, r, end := GoRound(start, target, delta, timeout, ticks);
      if !stopped {
        SweptAll(buckets, start, ticks(0) + delta);
      }
      start := h;
    }

    /** The entry found is reported again. */
    method Update(h: nat, i: nat, d: Dst, now: int, flags: set<Flag>, expire: int)
      requires Valid() && clock == now && h == hash(d.addr, d.port) && Passed(buckets[h], d, now, i)
      requires i < |buckets[h]| && Hits(buckets[h][i], d, now) && (IsIpv6 in flags <==> d.v6)
      modifies `buckets, `ref
      ensures Valid() && ref == Renew(old(ref), d, now, flags, expire)
    {
      var b, e := buckets[h], buckets[h][i];
      var e' := e.(flags := e.flags + flags, expire := expire);
      StopsAt(b, d, now, i, flags, expire);
      RenewAgrees(hash, buckets, ref, d, now, flags, expire);
      SizeReplace(b, i, e', base);
      SizeUpdate(buckets, h, b[i := e'], base);
      buckets := buckets[h := b[i := e']];
      ref := Renew(ref, d, now, flags, expire);
    }

    /** `dst_blacklist_lst_add` and the accounting. */
    method Prepend(e: Entry)
      requires Valid()
      modifies `buckets, `counts, `memUsed, `ref
      ensures Valid() && ref == [e] + old(ref) && memUsed == old(memUsed) + Size(e, base)
    {
      var h := hash(e.addr, e.port);
      PrependAgrees(hash, buckets, ref, e, clock);
      SizeUpdate(buckets, h, [e] + buckets[h], base);
      assert ([e] + buckets[h])[1..] == buckets[h];
      memUsed := memUsed + Size(e, base);
      counts := counts[h := counts[h] + 1];
      buckets := buckets[h := [e] + buckets[h]];
      ref := [e] + ref;
    }

    /** A destination that is not listed: let in if there is room, perhaps after cleaning, and memory. */
    method AddNew(e: Entry, maxMem: int, cleanTime: int, ticks: nat -> int, malloc: bool) returns (ret: int)
      requires Valid() && Ticking(ticks) && clock == ticks(0)
      modifies `buckets, `counts, `memUsed, `start, `clock, `ref
      ensures Valid() && Reading(ticks, 0, clock)
      ensures ret in {0, -1, E_OUT_OF_MEM} && ref == if ret == 0 then [e] + old(ref) else old(ref)
      ensures (ret == 0 ==> memUsed < maxMem && malloc) && (ret == -1 ==> memUsed + Size(e, base) >= maxMem)
      ensures ret == -2 ==> !malloc && memUsed + Size(e, base) < maxMem
    {
      var size := Size(e, base);
      if memUsed + size >= maxMem {
        var no, stopped, end := CleanExpired(memUsed / 16 * 14, 0, cleanTime, ticks);
        if memUsed + size >= maxMem {
          return -1;
        }
      }
      if !malloc {
        return E_OUT_OF_MEM;
      }
      Prepend(e);
      ret := 0;
    }

    /**
      `dst_blacklist_add_ip`: 0 if the plain list takes the report too, -1 if the table is full
      even after cleaning, E_OUT_OF_MEM if there is no memory for an entry.
     */
    method AddIp(errFlags: set<Flag>, d: Dst, timeout: int, maxMem: int, cleanTime: int, ticks: nat -> int,
                 malloc: bool)
      returns (ret: int)
      requires Valid() && Ticking(ticks) && clock <= ticks(0)
      modifies `buckets, `counts, `memUsed, `start, `clock, `ref
      ensures Valid() && Reading(ticks, 0, clock)
      ensures ret in {0, -1, -2}
      ensures ref == if ret == 0 then Report(old(ref), d, ticks(0), WithType(errFlags, d.v6), ticks(0) + timeout)
                     else old(ref)
      ensures ret == 0 && LookUp(old(ref), d, ticks(0)) == None ==> memUsed < maxMem && malloc
      ensures ret == -2 ==> !malloc && memUsed + (if d.v6 then base + 12 else base) < maxMem
      ensures ret == -1 ==> memUsed + (if d.v6 then base + 12 else base) >= maxMem
      ensures ret != 0 ==> LookUp(old(ref), d, ticks(0)) == None
      ensures ret == 0 ==> Laws.IsListed(ref, d, errFlags - {IsIpv6}, ticks(0), ticks(0) + timeout)
      ensures Laws.SameElsewhere(old(ref), ref, d)
    {
      var flags, now := WithType(errFlags, d.v6), ticks(0);
      Laws.ReportLists(ref, d, now, flags, now + timeout);
      var e := NewEntry(d, flags, now + timeout);
      var h := hash(d.addr, d.port);
      var i := LstFind(d, now);
      if i < |buckets[h]| {
        Update(h, i, d, now, flags, now + timeout);
        return 0;
      }
      ret := AddNew(e, maxMem, cleanTime, ticks, malloc);
    }

    /** One bucket of a flush. */
    method FlushBucket(h: nat)
      requires h < |buckets| && Accounted(buckets, counts, memUsed, base)
      modifies `buckets, `counts, `memUsed
      ensures buckets == old(buckets)[h := OnlyPermanent(old(buckets)[h])]
      ensures Accounted(buckets, counts, memUsed, base)
    {
      var i := 0;
      while i < |buckets[h]|
        invariant |buckets| == |old(buckets)| && buckets == old(buckets)[h := buckets[h]]
        invariant Accounted(buckets, counts, memUsed, base)
        invariant i <= |buckets[h]|
                  && buckets[h][..i] + OnlyPermanent(buckets[h][i..]) == OnlyPermanent(old(buckets)[h])
        decreases |buckets[h]| - i
      {
        FlushStep(buckets[h], i);
        if Permanent !in buckets[h][i].flags {
          Unlink(h, i);
        } else {
          i := i + 1;
        }
      }
      assert buckets[h] == buckets[h][..i] + OnlyPermanent(buckets[h][i..]);
    }

    /** `dst_blst_flush`: exactly the permanent entries stay. */
    method Flush()
      requires Valid()
      modifies `buckets, `counts, `memUsed, `ref
      ensures Valid() && ref == OnlyPermanent(old(ref))
    {
      var h := 0;
      while h < HASH_SIZE
        invariant 0 <= h <= HASH_SIZE == |buckets| && ref == old(ref)
        invariant Accounted(buckets, counts, memUsed, base)
        invariant forall k | 0 <= k < HASH_SIZE ::
                    buckets[k] == if k < h then OnlyPermanent(old(buckets)[k]) else old(buckets)[k]
      {
        FlushBucket(h);
        h := h + 1;
      }
      FlushAgrees(hash, old(buckets), buckets, ref, clock);
      ref := OnlyPermanent(ref);
    }

    ghost method Advance(now: int)
      requires Valid() && clock <= now
      modifies `clock
      ensures Valid() && clock == now
    {
      AgreeLater(hash, buckets, ref, clock, now);
      clock := now;
    }
  }

  /** The address family of the destination decides the IPv6 bit. */
  function WithType(flags: set<Flag>, v6: bool): set<Flag> {
    if v6 then flags + {IsIpv6} else flags - {IsIpv6}
  }

  lemma {:induction false} NothingUsed(buckets: seq<seq<Entry>>, base: nat)
    requires forall h | 0 <= h < |buckets| :: buckets[h] == []
    ensures SizeOfAll(buckets, base) == 0
  {
    if buckets != [] {
      NothingUsed(buckets[1..], base);
    }
  }

  lemma FlushStep(b: seq<Entry>, i: nat)
    requires i < |b|
    ensures var r := b[..i] + OnlyPermanent(b[i..]);
            if Permanent in b[i].flags then b[..i + 1] + OnlyPermanent(b[i + 1..]) == r
            else Without(b, i)[..i] + OnlyPermanent(Without(b, i)[i..]) == r
  {
    assert b[i..][1..] == b[i + 1..] && Without(b, i)[i..] == b[i + 1..] && Without(b, i)[..i] == b[..i];
    assert b[..i + 1] == b[..i] + [b[i]];
  }

  lemma FlushAgrees(hash: Hash, before: seq<seq<Entry>>, buckets: seq<seq<Entry>>, ref: seq<Entry>, clock: int)
    requires Agree(hash, before, ref, clock) && |buckets| == HASH_SIZE
    requires forall k | 0 <= k < HASH_SIZE :: buckets[k] == OnlyPermanent(before[k])
    ensures Agree(hash, buckets, OnlyPermanent(ref), clock)
  {
    forall h | 0 <= h < HASH_SIZE
      ensures Live(buckets[h], clock) == Live(InBucket(hash, OnlyPermanent(ref), h), clock)
    {
      PermanentBucket(hash, ref, h);
      PermanentLive(before[h], clock);
      PermanentLive(InBucket(hash, ref, h), clock);
    }
  }

  /** The readings of a clock that does not run backwards. */
  ghost predicate Ticking(ticks: nat -> int) {
    forall i: nat, j: nat | i <= j :: ticks(i) <= ticks(j)
  }

  /** A time the clock has shown, and so much more. */
  ghost predicate Reading(ticks: nat -> int, delta: nat, clock: int) {
    ticks(0) + delta <= clock && exists r: nat :: clock == ticks(r) + delta
  }

  ghost predicate AllFresh(b: seq<Entry>, now: int) {
    forall j | 0 <= j < |b| :: !Expired(b[j], now)
  }

  /** The cleaner has been through the buckets from..to, counted round and round. */
  ghost predicate Swept(buckets: seq<seq<Entry>>, from: nat, to: nat, now: int)
    requires |buckets| == HASH_SIZE
  {
    forall k | from <= k < to :: AllFresh(buckets[k % HASH_SIZE], now)
  }

  lemma SweptMore(before: seq<seq<Entry>>, buckets: seq<seq<Entry>>, from: nat, h: nat, now: int)
    requires |before| == HASH_SIZE && Swept(before, from, h, now)
    requires |buckets| == HASH_SIZE && buckets == before[h % HASH_SIZE := buckets[h % HASH_SIZE]]
    requires AllFresh(buckets[h % HASH_SIZE], now)
    ensures Swept(buckets, from, h + 1, now)
  {
    forall k | from <= k < h + 1
      ensures AllFresh(buckets[k % HASH_SIZE], now)
    {
      assert k < h ==> AllFresh(before[k % HASH_SIZE], now);
    }
  }

  lemma SweptAll(buckets: seq<seq<Entry>>, from: nat, now: int)
    requires |buckets| == HASH_SIZE && Swept(buckets, from, from + HASH_SIZE, now)
    ensures forall h | 0 <= h < HASH_SIZE :: AllFresh(buckets[h], now)
  {
    forall h | 0 <= h < HASH_SIZE
      ensures AllFresh(buckets[h], now)
    {
      var q := from / HASH_SIZE;
      var k := if q * HASH_SIZE + h >= from then q * HASH_SIZE + h else (q + 1) * HASH_SIZE + h;
      assert k % HASH_SIZE == h;
    }
  }
}
