/**
  How dns_cache.c makes a cache entry out of a DNS answer (`dns_cache_mk_rd_entry`).  A first
  pass takes the matching records out of the list and adds up their sizes; a second pass lays
  them out, one behind the other, in a single block of that size.
 */
module EntryLayout {
  import opened CaseHash
  import opened Options
  import opened Sequences
  import opened DnsTable

  const T_PTR := 12
  const T_TXT := 16
  const T_NAPTR := 35
  const T_EBL := 65300

  const TICKS_HZ := 16

  /**
    `struct rdata`: a record of an answer; data is what is copied into the entry, from address base.
    The pointers that some types of data hold are kept apart from the bytes.
   */
  datatype Rdata = Rdata(name: Name, rrType: int, ttl: nat, base: int, data: seq<bv8>, ptrs: seq<int>)

  /** sizeof of a pointer, of a struct dns_rr and of a struct dns_hash_entry. */
  datatype Sizes = Sizes(ptr: nat, rr: nat, entry: nat)

  predicate Sane(sz: Sizes) {
    sz.ptr > 0 && sz.rr > 0 && sz.entry > 0
  }

  predicate Supported(t: int) {
    t in {T_A, T_AAAA, T_SRV, T_NAPTR, T_CNAME, T_TXT, T_EBL, T_PTR}
  }

  // ----- Taking the records out -----

  predicate Matches(nm: Naming, r: Rdata, name: Name, t: int) {
    r.rrType == t && nm.same(r.name, name)
  }

  /** The first record with this name decides between the type asked for and CNAME. */
  function TypeFor(nm: Naming, list: seq<Rdata>, name: Name, t: int): int {
    if list == [] then t
    else if Matches(nm, list[0], name, t) || Matches(nm, list[0], name, T_CNAME) then list[0].rrType
    else TypeFor(nm, list[1..], name, t)
  }

  /** The matching records, or the others, in their order. */
  function Chosen(nm: Naming, list: seq<Rdata>, name: Name, t: int, wanted: bool): seq<Rdata> {
    if list == [] then []
    else if Matches(nm, list[0], name, t) == wanted then [list[0]] + Chosen(nm, list[1..], name, t, wanted)
    else Chosen(nm, list[1..], name, t, wanted)
  }

  lemma {:induction false} ChosenMatch(nm: Naming, list: seq<Rdata>, name: Name, t: int, wanted: bool, x: Rdata)
    ensures x in Chosen(nm, list, name, t, wanted) <==> x in list && Matches(nm, x, name, t) == wanted
  {
    if list != [] {
      ChosenMatch(nm, list[1..], name, t, wanted, x);
    }
  }

  /** No record is lost or made up. */
  lemma {:induction false} ChosenPartition(nm: Naming, list: seq<Rdata>, name: Name, t: int)
    ensures multiset(Chosen(nm, list, name, t, true)) + multiset(Chosen(nm, list, name, t, false)) == multiset(list)
  {
    if list != [] {
      ChosenPartition(nm, list[1..], name, t);
      assert list == [list[0]] + list[1..];
    }
  }

  lemma {:induction false} ChosenSnoc(nm: Naming, list: seq<Rdata>, x: Rdata, name: Name, t: int, wanted: bool)
    ensures Chosen(nm, list + [x], name, t, wanted) ==
            Chosen(nm, list, name, t, wanted) + if Matches(nm, x, name, t) == wanted then [x] else []
  {
    if list == [] {
      assert list + [x] == [x];
    } else {
      assert (list + [x])[1..] == list[1..] + [x];
      ChosenSnoc(nm, list[1..], x, name, t, wanted);
    }
  }

  /** Records before the one that decides match neither type. */
  ghost predicate NoneMatches(nm: Naming, list: seq<Rdata>, name: Name, t: int) {
    forall i | 0 <= i < |list| :: !Matches(nm, list[i], name, t)
  }

  lemma {:induction false} NothingChosen(nm: Naming, list: seq<Rdata>, name: Name, t: int)
    requires NoneMatches(nm, list, name, t)
    ensures Chosen(nm, list, name, t, true) == [] && Chosen(nm, list, name, t, false) == list
  {
    if list != [] {
      NothingChosen(nm, list[1..], name, t);
    }
  }

  // ----- Sizes -----

  /** x is a multiple of n. */
  predicate Aligned(x: nat, n: nat)
    requires n > 0
    decreases x
  {
    x == 0 || (x >= n && Aligned(x - n, n))
  }

  lemma {:induction false} AlignedSum(x: nat, y: nat, n: nat)
    requires n > 0 && Aligned(x, n) && Aligned(y, n)
    ensures Aligned(x + y, n)
    decreases x
  {
    if x > 0 {
      AlignedSum(x - n, y, n);
    }
  }

  lemma {:induction false} AlignedIsEven(x: nat, n: nat)
    requires n > 0 && n % 2 == 0 && Aligned(x, n)
    ensures x % 2 == 0
    decreases x
  {
    if x > 0 {
      AlignedIsEven(x - n, n);
    }
  }

  /** The rounding macros of ut.h: up to the next multiple of the size of a pointer or a short. */
  function Round(x: nat, n: nat): (r: nat)
    requires n > 0
    ensures x <= r < x + n && Aligned(r, n)
    decreases x
  {
    if x == 0 then 0 else if x <= n then n else n + Round(x - n, n)
  }

  /** What the data of a record must be aligned to. */
  function Padding(sz: Sizes, t: int): (n: nat)
    requires Sane(sz)
    ensures n > 0
  {
    if t == T_SRV then 2 else if t in {T_NAPTR, T_TXT, T_EBL} then sz.ptr else 1
  }

  /** Where the data of a record begins behind its struct dns_rr. */
  function DataAt(sz: Sizes, t: int): (r: nat)
    requires Sane(sz)
    ensures r >= sz.rr && Aligned(r, Padding(sz, t))
  {
    Round(sz.rr, Padding(sz, t))
  }

  function BlockSize(sz: Sizes, t: int, size: nat): (r: nat)
    requires Sane(sz)
    ensures r >= DataAt(sz, t) + size && r > 0 && Aligned(r, sz.ptr)
  {
    Round(DataAt(sz, t) + size, sz.ptr)
  }

  function BlockSizes(sz: Sizes, t: int, rs: seq<Rdata>): nat
    requires Sane(sz)
  {
    if rs == [] then 0 else BlockSizes(sz, t, rs[..|rs| - 1]) + BlockSize(sz, t, |rs[|rs| - 1].data|)
  }

  /** Where the records begin: behind the entry and its name. */
  function Header(sz: Sizes, name: Name): (r: nat)
    requires Sane(sz)
    ensures r >= sz.entry + |name| && Aligned(r, sz.ptr)
  {
    Round(sz.entry + |name|, sz.ptr)
  }

  lemma {:induction false} BlockSizesAligned(sz: Sizes, t: int, rs: seq<Rdata>)
    requires Sane(sz)
    ensures Aligned(BlockSizes(sz, t, rs), sz.ptr) && (BlockSizes(sz, t, rs) == 0 <==> rs == [])
  {
    if rs != [] {
      BlockSizesAligned(sz, t, rs[..|rs| - 1]);
      AlignedSum(BlockSizes(sz, t, rs[..|rs| - 1]), BlockSize(sz, t, |rs[|rs| - 1].data|), sz.ptr);
    }
  }

  // ----- Times -----

  /** FIX_TTL */
  function FixTtl(ttl: nat, minTtl: nat, maxTtl: nat): nat {
    if ttl < minTtl then minTtl else if ttl > maxTtl then maxTtl else ttl
  }

  function ToTicks(s: nat): nat {
    s * TICKS_HZ
  }

  // ----- The entry -----

  /** A record in the block: where it and its data are, when it expires, and the pointers in its data. */
  datatype PlacedRr = PlacedRr(at: nat, dataAt: nat, expire: int, ptrs: seq<int>)

  /** `struct dns_rr`: places in the block, 0 for the null pointer. */
  datatype RrHead = RrHead(next: nat, rdata: nat, expire: int)

  /** The entry: its record list begins at first; heads are the struct dns_rr in the block. */
  datatype RdEntry = RdEntry(rrType: int, first: nat, heads: map<nat, RrHead>, rrs: seq<PlacedRr>, totalSize: nat,
                             expire: int)

  /** `translate_pointer` */
  function TranslatePointer(copy: int, orig: int, p: int): int {
    if p != 0 then copy + (p - orig) else 0
  }

  /** The pointers in the copied data of a record. */
  function Translated(t: int, r: Rdata, at: nat): seq<int> {
    if t !in {T_NAPTR, T_TXT, T_EBL} then []
    else seq(|r.ptrs|, i requires 0 <= i < |r.ptrs| => TranslatePointer(at, r.base, r.ptrs[i]))
  }

  /** Record i stands behind the header and the i records before it. */
  predicate IsPlaced(sz: Sizes, name: Name, t: int, rs: seq<Rdata>, i: nat, p: PlacedRr)
    requires Sane(sz) && i < |rs|
  {
    p.at == Header(sz, name) + BlockSizes(sz, t, rs[..i]) && p.dataAt == p.at + DataAt(sz, t)
  }

  /** The pointers in the data have been translated. */
  ghost predicate Pointed(t: int, rs: seq<Rdata>, rrs: seq<PlacedRr>) {
    |rrs| <= |rs| && forall i | 0 <= i < |rrs| :: rrs[i].ptrs == Translated(t, rs[i], rrs[i].dataAt)
  }

  /** A pointer into the data of a record points to the same byte of the copy. */
  lemma PointersFollow(sz: Sizes, name: Name, t: int, rs: seq<Rdata>, rrs: seq<PlacedRr>, mem: seq<bv8>, i: nat, k: nat)
    requires LaidOut(sz, name, t, rs, rrs, mem) && Pointed(t, rs, rrs) && i < |rrs| && k < |rrs[i].ptrs|
    requires rs[i].base > 0 && rs[i].base <= rs[i].ptrs[k] < rs[i].base + |rs[i].data|
    ensures var q := rrs[i].ptrs[k]; rrs[i].dataAt <= q < |mem| && mem[q] == rs[i].data[rs[i].ptrs[k] - rs[i].base]
  {
    var at, off := rrs[i].dataAt, rs[i].ptrs[k] - rs[i].base;
    assert IsPlaced(sz, name, t, rs, i, rrs[i]) && InPlace(rs[i].data, at, mem);
    assert mem[at..at + |rs[i].data|][off] == mem[at + off];
  }

  // ----- The record list in the block -----

  /** Following next from at meets exactly these records. */
  ghost predicate Listed(heads: map<nat, RrHead>, at: nat, rrs: seq<PlacedRr>)
    decreases |rrs|
  {
    if rrs == [] then at == 0
    else
      && at == rrs[0].at != 0 && at in heads
      && heads[at].rdata == rrs[0].dataAt && heads[at].expire == rrs[0].expire
      && Listed(heads, heads[at].next, rrs[1..])
  }

  /** While the list is made its last next points behind the last record. */
  ghost predicate Growing(heads: map<nat, RrHead>, rrs: seq<PlacedRr>, end: nat) {
    && (forall i | 0 <= i < |rrs| :: 0 < rrs[i].at < end && rrs[i].at in heads)
    && (forall i | 0 <= i < |rrs| :: heads[rrs[i].at] == RrHead(NextAt(rrs, i, end), rrs[i].dataAt, rrs[i].expire))
    && (forall i, j | 0 <= i < j < |rrs| :: rrs[i].at < rrs[j].at)
  }

  function NextAt(rrs: seq<PlacedRr>, i: nat, end: nat): nat
    requires i < |rrs|
  {
    if i + 1 < |rrs| then rrs[i + 1].at else end
  }

  lemma GrowsMore(heads: map<nat, RrHead>, rrs: seq<PlacedRr>, p: PlacedRr, next: nat)
    requires Growing(heads, rrs, p.at) && 0 < p.at < next
    ensures Growing(heads[p.at := RrHead(next, p.dataAt, p.expire)], rrs + [p], next)
  {
    var heads', rrs' := heads[p.at := RrHead(next, p.dataAt, p.expire)], rrs + [p];
    forall i | 0 <= i < |rrs'|
      ensures heads'[rrs'[i].at] == RrHead(NextAt(rrs', i, next), rrs'[i].dataAt, rrs'[i].expire)
    {
      if i < |rrs| {
        assert heads[rrs[i].at] == RrHead(NextAt(rrs, i, p.at), rrs[i].dataAt, rrs[i].expire);
      }
    }
  }

  /** `*tail_rr=0` */
  function Closed(heads: map<nat, RrHead>, last: nat): map<nat, RrHead>
    requires last in heads
  {
    heads[last := heads[last].(next := 0)]
  }

  lemma {:induction false} ListIsClosed(heads: map<nat, RrHead>, rrs: seq<PlacedRr>, end: nat, i: nat)
    requires Growing(heads, rrs, end) && i < |rrs|
    ensures Listed(Closed(heads, rrs[|rrs| - 1].at), rrs[i].at, rrs[i..])
    decreases |rrs| - i
  {
    var n := |rrs| - 1;
    assert rrs[i..][0] == rrs[i] && rrs[i..][1..] == rrs[i + 1..];
    assert heads[rrs[i].at] == RrHead(NextAt(rrs, i, end), rrs[i].dataAt, rrs[i].expire);
    if i < n {
      assert rrs[i].at < rrs[n].at;
      ListIsClosed(heads, rrs, end, i + 1);
    }
  }

  /** The walk of every reader of an entry: from the head of the list along next. */
  method ReadList(heads: map<nat, RrHead>, first: nat, ghost rrs: seq<PlacedRr>) returns (found: seq<(nat, int)>)
    requires Listed(heads, first, rrs)
    ensures |found| == |rrs| && forall i | 0 <= i < |rrs| :: found[i] == (rrs[i].dataAt, rrs[i].expire)
  {
    found := [];
    var rr := first;
    assert rrs[0..] == rrs;
    while rr != 0
      invariant |found| <= |rrs| && Listed(heads, rr, rrs[|found|..])
      invariant forall i | 0 <= i < |found| :: found[i] == (rrs[i].dataAt, rrs[i].expire)
      decreases |rrs| - |found|
    {
      assert rrs[|found|..][0] == rrs[|found|] && rrs[|found|..][1..] == rrs[|found| + 1..];
      found := found + [(heads[rr].rdata, heads[rr].expire)];
      rr := heads[rr].next;
    }
  }

  /** The records are laid out one behind the other and their data is in place. */
  ghost predicate LaidOut(sz: Sizes, name: Name, t: int, rs: seq<Rdata>, rrs: seq<PlacedRr>, mem: seq<bv8>) {
    && Sane(sz) && |rrs| <= |rs|
    && forall i | 0 <= i < |rrs| ::
         IsPlaced(sz, name, t, rs, i, rrs[i]) && InPlace(rs[i].data, rrs[i].dataAt, mem)
  }

  predicate InPlace(data: seq<bv8>, at: nat, mem: seq<bv8>) {
    at + |data| <= |mem| && mem[at..at + |data|] == data
  }

  /** Blocks are aligned, follow each other without a gap, and hold their data; the last ends where the entry ends. */
  lemma BlocksFit(sz: Sizes, name: Name, t: int, rs: seq<Rdata>, i: nat, p: PlacedRr)
    requires Sane(sz) && i < |rs| && IsPlaced(sz, name, t, rs, i, p)
    ensures Aligned(p.at, sz.ptr) && p.at >= sz.entry + |name|
    ensures t == T_SRV && sz.ptr % 2 == 0 ==> p.dataAt % 2 == 0
    ensures Padding(sz, t) == sz.ptr ==> Aligned(p.dataAt, sz.ptr)
    ensures p.at + sz.rr <= p.dataAt
    ensures p.dataAt + |rs[i].data| <= p.at + BlockSize(sz, t, |rs[i].data|)
            == Header(sz, name) + BlockSizes(sz, t, rs[..i + 1])
  {
    BlockSizesAligned(sz, t, rs[..i]);
    AlignedSum(Header(sz, name), BlockSizes(sz, t, rs[..i]), sz.ptr);
    if Padding(sz, t) == sz.ptr {
      AlignedSum(p.at, DataAt(sz, t), sz.ptr);
    }
    if t == T_SRV && sz.ptr % 2 == 0 {
      AlignedIsEven(p.at, sz.ptr);
      AlignedIsEven(DataAt(sz, t), 2);
    }
    assert rs[..i + 1][..i] == rs[..i];
  }

  /** The block of record i ends before that of a later record j begins, and within the entry. */
  lemma {:induction false} BlocksDisjoint(sz: Sizes, t: int, rs: seq<Rdata>, i: nat, j: nat)
    requires Sane(sz) && i <= j <= |rs|
    ensures BlockSizes(sz, t, rs[..i]) <= BlockSizes(sz, t, rs[..j])
    decreases j - i
  {
    if i < j {
      BlocksDisjoint(sz, t, rs, i, j - 1);
      assert rs[..j][..j - 1] == rs[..j - 1];
    }
  }

  /** The search for the first record with the name. */
  method FindType(nm: Naming, list: seq<Rdata>, name: Name, t0: int) returns (t: int, i: nat)
    ensures t == TypeFor(nm, list, name, t0)
    ensures i <= |list| && NoneMatches(nm, list[..i], name, t)
  {
    i := 0;
    assert list[0..] == list;
    while i < |list| && !(Matches(nm, list[i], name, t0) || Matches(nm, list[i], name, T_CNAME))
      invariant i <= |list| && TypeFor(nm, list[i..], name, t0) == TypeFor(nm, list, name, t0)
      invariant NoneMatches(nm, list[..i], name, t0) && NoneMatches(nm, list[..i], name, T_CNAME)
    {
      assert list[i..][1..] == list[i + 1..];
      i := i + 1;
    }
    t := if i < |list| then list[i].rrType else t0;
  }

  /** The first pass: finds the type, takes the matching records out in order, and adds up their blocks. */
  method TakeOut(nm: Naming, sz: Sizes, list: seq<Rdata>, name: Name, t0: int)
    returns (t: int, matched: seq<Rdata>, rest: seq<Rdata>, size: nat)
    requires Sane(sz)
    ensures t == TypeFor(nm, list, name, t0)
    ensures matched == (if Supported(t) then Chosen(nm, list, name, t, true) else [])
    ensures rest == (if Supported(t) then Chosen(nm, list, name, t, false) else list)
    ensures size == BlockSizes(sz, t, matched)
  {
    var i;
    t, i := FindType(nm, list, name, t0);
    if !Supported(t) {
      return t, [], list, 0;
    }
    matched, rest, size := [], list[..i], 0;
    NothingChosen(nm, list[..i], name, t);
    while i < |list|
      invariant i <= |list|
      invariant matched == Chosen(nm, list[..i], name, t, true) && rest == Chosen(nm, list[..i], name, t, false)
      invariant size == BlockSizes(sz, t, matched)
    {
      var r := list[i];
      assert list[..i + 1] == list[..i] + [r];
      ChosenSnoc(nm, list[..i], r, name, t, true);
      ChosenSnoc(nm, list[..i], r, name, t, false);
      if Matches(nm, r, name, t) {
        size := size + BlockSize(sz, t, |r.data|);
        assert (matched + [r])[..|matched|] == matched;
        matched := matched + [r];
      } else {
        rest := rest + [r];
      }
      i := i + 1;
    }
    assert list[..i] == list;
  }

  lemma WriteBeyond(mem: seq<bv8>, at: nat, data: seq<bv8>, lo: nat, hi: nat)
    requires at + |data| <= |mem| && lo <= hi <= at
    ensures Written(mem, at, data)[lo..hi] == mem[lo..hi]
  {}

  lemma WriteHere(mem: seq<bv8>, at: nat, data: seq<bv8>)
    requires at + |data| <= |mem|
    ensures Written(mem, at, data)[at..at + |data|] == data
  {}

  /** The data of record i ends before that of a later record begins. */
  lemma DataBelow(sz: Sizes, name: Name, t: int, rs: seq<Rdata>, i: nat, p: PlacedRr, j: nat, q: PlacedRr)
    requires Sane(sz) && i < j < |rs| && IsPlaced(sz, name, t, rs, i, p) && IsPlaced(sz, name, t, rs, j, q)
    ensures p.dataAt + |rs[i].data| <= q.dataAt
  {
    BlocksFit(sz, name, t, rs, i, p);
    BlocksDisjoint(sz, t, rs, i + 1, j);
  }

  /** Writing behind the blocks already laid out does not disturb them. */
  lemma LaidOutMore(sz: Sizes, name: Name, t: int, rs: seq<Rdata>, rrs: seq<PlacedRr>, mem: seq<bv8>, p: PlacedRr)
    requires LaidOut(sz, name, t, rs, rrs, mem) && |rrs| < |rs| && IsPlaced(sz, name, t, rs, |rrs|, p)
    requires p.dataAt + |rs[|rrs|].data| <= |mem|
    ensures LaidOut(sz, name, t, rs, rrs + [p], Written(mem, p.dataAt, rs[|rrs|].data))
  {
    var data, rrs' := rs[|rrs|].data, rrs + [p];
    var mem' := Written(mem, p.dataAt, data);
    forall i | 0 <= i < |rrs'|
      ensures IsPlaced(sz, name, t, rs, i, rrs'[i]) && InPlace(rs[i].data, rrs'[i].dataAt, mem')
    {
      if i < |rrs| {
        StillInPlace(sz, name, t, rs, i, rrs[i], |rrs|, p, mem);
      } else {
        WriteHere(mem, p.dataAt, data);
      }
    }
  }

  lemma StillInPlace(sz: Sizes, name: Name, t: int, rs: seq<Rdata>, i: nat, p: PlacedRr, j: nat, q: PlacedRr,
                     mem: seq<bv8>)
    requires Sane(sz) && i < j < |rs| && IsPlaced(sz, name, t, rs, i, p) && IsPlaced(sz, name, t, rs, j, q)
    requires InPlace(rs[i].data, p.dataAt, mem) && q.dataAt + |rs[j].data| <= |mem|
    ensures InPlace(rs[i].data, p.dataAt, Written(mem, q.dataAt, rs[j].data))
  {
    DataBelow(sz, name, t, rs, i, p, j, q);
    WriteBeyond(mem, q.dataAt, rs[j].data, p.dataAt, p.dataAt + |rs[i].data|);
  }

  /** Expiry times of the records, and of the entry: the latest of them. */
  ghost predicate Expiries(rs: seq<Rdata>, rrs: seq<PlacedRr>, now: int, minTtl: nat, maxTtl: nat, maxSeen: nat) {
    && |rrs| <= |rs|
    && (forall i | 0 <= i < |rrs| ::
          rrs[i].expire == now + ToTicks(FixTtl(rs[i].ttl, minTtl, maxTtl)) <= now + ToTicks(maxSeen))
    && (rrs == [] ==> maxSeen == 0)
    && (rrs != [] ==> exists i | 0 <= i < |rrs| :: rrs[i].expire == now + ToTicks(maxSeen))
  }

  /** The records made so far: they lie in place and are listed, and the next goes to `at`. */
  ghost predicate Made(sz: Sizes, name: Name, t: int, rs: seq<Rdata>, rrs: seq<PlacedRr>, mem: seq<bv8>,
                       heads: map<nat, RrHead>, at: nat) {
    && LaidOut(sz, name, t, rs, rrs, mem) && Pointed(t, rs, rrs) && Growing(heads, rrs, at)
    && EndsAt(sz, name, t, rs, |rrs|, at)
  }

  /** The first n records end where the next would begin. */
  ghost predicate EndsAt(sz: Sizes, name: Name, t: int, rs: seq<Rdata>, n: nat, at: nat)
    requires Sane(sz) && n <= |rs|
  {
    at == Header(sz, name) + BlockSizes(sz, t, rs[..n])
  }

  lemma MadeMore(sz: Sizes, name: Name, t: int, rs: seq<Rdata>, rrs: seq<PlacedRr>, mem: seq<bv8>,
                 heads: map<nat, RrHead>, p: PlacedRr, rrs': seq<PlacedRr>, mem': seq<bv8>,
                 heads': map<nat, RrHead>, next: nat)
    requires Made(sz, name, t, rs, rrs, mem, heads, p.at) && |rrs| < |rs| && IsPlaced(sz, name, t, rs, |rrs|, p)
    requires p.ptrs == Translated(t, rs[|rrs|], p.dataAt) && p.dataAt + |rs[|rrs|].data| <= |mem|
    requires 0 < p.at < next && EndsAt(sz, name, t, rs, |rrs| + 1, next)
    requires rrs' == rrs + [p] && mem' == Written(mem, p.dataAt, rs[|rrs|].data)
             && heads' == heads[p.at := RrHead(next, p.dataAt, p.expire)]
    ensures Made(sz, name, t, rs, rrs', mem', heads', next)
  {
    LaidOutMore(sz, name, t, rs, rrs, mem, p);
    PointedMore(t, rs, rrs, p);
    GrowsMore(heads, rrs, p, next);
    assert |rrs'| == |rrs| + 1;
  }

  lemma FitsHere(sz: Sizes, name: Name, t: int, rs: seq<Rdata>, i: nat, p: PlacedRr)
    requires Sane(sz) && i < |rs| && IsPlaced(sz, name, t, rs, i, p)
    ensures p.dataAt + |rs[i].data| <= Header(sz, name) + BlockSizes(sz, t, rs)
    ensures 0 < p.at < p.at + BlockSize(sz, t, |rs[i].data|) == Header(sz, name) + BlockSizes(sz, t, rs[..i + 1])
  {
    BlocksFit(sz, name, t, rs, i, p);
    BlocksDisjoint(sz, t, rs, i + 1, |rs|);
    assert rs[..|rs|] == rs;
  }

  lemma PointedMore(t: int, rs: seq<Rdata>, rrs: seq<PlacedRr>, p: PlacedRr)
    requires Pointed(t, rs, rrs) && |rrs| < |rs| && p.ptrs == Translated(t, rs[|rrs|], p.dataAt)
    ensures Pointed(t, rs, rrs + [p])
  {}

  /** One turn of the second pass: record i is placed at `at`, the end of those before it. */
  method PlaceOne(sz: Sizes, name: Name, t: int, rs: seq<Rdata>, ghost rrs: seq<PlacedRr>, i: nat, at: nat,
                  expire: int, mem: seq<bv8>, heads: map<nat, RrHead>)
    returns (p: PlacedRr, next: nat, mem': seq<bv8>, heads': map<nat, RrHead>)
    requires Made(sz, name, t, rs, rrs, mem, heads, at) && |rrs| == i < |rs|
             && |mem| == Header(sz, name) + BlockSizes(sz, t, rs)
    ensures Made(sz, name, t, rs, rrs + [p], mem', heads', next) && |mem'| == |mem| && p.expire == expire
  {
    var dataAt := at + DataAt(sz, t);
    p := PlacedRr(at, dataAt, expire, Translated(t, rs[i], dataAt));
    FitsHere(sz, name, t, rs, i, p);
    mem' := Written(mem, dataAt, rs[i].data);
    next := at + BlockSize(sz, t, |rs[i].data|);
    heads' := heads[at := RrHead(next, dataAt, expire)];
    MadeMore(sz, name, t, rs, rrs, mem, heads, p, rrs + [p], mem', heads', next);
  }

  /** The records of an entry are complete: in place, with their pointers, and on the list. */
  ghost predicate Complete(sz: Sizes, name: Name, t: int, rs: seq<Rdata>, e: RdEntry, mem: seq<bv8>) {
    && Sane(sz) && |mem| == e.totalSize == Header(sz, name) + BlockSizes(sz, t, rs)
    && e.rrType == t && e.first == Header(sz, name) && |e.rrs| == |rs|
    && LaidOut(sz, name, t, rs, e.rrs, mem) && Pointed(t, rs, e.rrs) && Listed(e.heads, e.first, e.rrs)
  }

  lemma MadeAll(sz: Sizes, name: Name, t: int, rs: seq<Rdata>, rrs: seq<PlacedRr>, mem: seq<bv8>,
                heads: map<nat, RrHead>, at: nat, expire: int)
    requires Made(sz, name, t, rs, rrs, mem, heads, at) && |rrs| == |rs| > 0
             && |mem| == Header(sz, name) + BlockSizes(sz, t, rs)
    ensures var last := rrs[|rrs| - 1].at;
            last in heads &&
            Complete(sz, name, t, rs, RdEntry(t, Header(sz, name), Closed(heads, last), rrs, |mem|, expire), mem)
  {
    ListIsClosed(heads, rrs, at, 0);
    assert rrs[0..] == rrs && rs[..0] == [];
    assert IsPlaced(sz, name, t, rs, 0, rrs[0]);
  }

  /** The second pass, in a block of zeros. */
  method LayOut(sz: Sizes, name: Name, t: int, rs: seq<Rdata>, size: nat, now: int, minTtl: nat, maxTtl: nat)
    returns (e: RdEntry, mem: seq<bv8>)
    requires Sane(sz) && size == BlockSizes(sz, t, rs) && rs != []
    ensures Complete(sz, name, t, rs, e, mem)
    ensures exists m: nat :: e.expire == now + ToTicks(m) && Expiries(rs, e.rrs, now, minTtl, maxTtl, m)
  {
    var total := Header(sz, name) + size;
    mem := seq(total, _ => 0);
    var at, maxSeen, i, rrs := Header(sz, name), 0, 0, [];
    var heads: map<nat, RrHead> := map[];
    while i < |rs|
      invariant 0 <= i <= |rs| && |rrs| == i && |mem| == total && Made(sz, name, t, rs, rrs, mem, heads, at)
      invariant Expiries(rs, rrs, now, minTtl, maxTtl, maxSeen)
    {
      var ttl, p := FixTtl(rs[i].ttl, minTtl, maxTtl), PlacedRr(0, 0, 0, []);
      p, at, mem, heads := PlaceOne(sz, name, t, rs, rrs, i, at, now + ToTicks(ttl), mem, heads);
      ExpiriesMore(rs, rrs, now, minTtl, maxTtl, maxSeen, p);
      maxSeen := if ttl > maxSeen then ttl else maxSeen;
      rrs := rrs + [p];
      i := i + 1;
    }
    var expire := now + ToTicks(maxSeen);
    MadeAll(sz, name, t, rs, rrs, mem, heads, at, expire);
    e := RdEntry(t, Header(sz, name), Closed(heads, rrs[|rrs| - 1].at), rrs, total, expire);
  }

  lemma ExpiriesMore(rs: seq<Rdata>, rrs: seq<PlacedRr>, now: int, minTtl: nat, maxTtl: nat, maxSeen: nat, p: PlacedRr)
    requires Expiries(rs, rrs, now, minTtl, maxTtl, maxSeen) && |rrs| < |rs|
    requires p.expire == now + ToTicks(FixTtl(rs[|rrs|].ttl, minTtl, maxTtl))
    ensures var ttl := FixTtl(rs[|rrs|].ttl, minTtl, maxTtl);
            Expiries(rs, rrs + [p], now, minTtl, maxTtl, if ttl > maxSeen then ttl else maxSeen)
  {
    var ttl, r := FixTtl(rs[|rrs|].ttl, minTtl, maxTtl), rrs + [p];
    if ttl > maxSeen || rrs == [] {
      assert r[|rrs|] == p;
    } else {
      var i :| 0 <= i < |rrs| && rrs[i].expire == now + ToTicks(maxSeen);
      assert r[i] == rrs[i];
    }
  }

  /** `free_rdata_list` */
  method FreeRdataList(head: seq<Rdata>) returns (freed: seq<Rdata>)
    ensures freed == head
  {
    freed := [];
    while |freed| < |head|
      invariant freed <= head
    {
      freed := freed + [head[|freed|]];
    }
  }

  /** What becomes of an answer: what stays on the list, and what is given back. */
  ghost predicate NoneLost(list: seq<Rdata>, rest: seq<Rdata>, freed: seq<Rdata>) {
    multiset(rest) + multiset(freed) == multiset(list)
  }

  /** Records taken out and not given back are lost. */
  lemma LostExactly(nm: Naming, list: seq<Rdata>, name: Name, t: int, freed: seq<Rdata>)
    requires freed == Chosen(nm, list, name, t, true) || freed == []
    ensures NoneLost(list, Chosen(nm, list, name, t, false), freed) <==> freed == Chosen(nm, list, name, t, true)
  {
    ChosenPartition(nm, list, name, t);
    var matched, rest := Chosen(nm, list, name, t, true), Chosen(nm, list, name, t, false);
    if freed != matched {
      assert |multiset(rest) + multiset(freed)| == |rest|;
      assert |multiset(list)| == |multiset(matched) + multiset(rest)| == |matched| + |rest|;
    }
  }

  /** The entry is the one made of these records. */
  ghost predicate IsEntryOf(sz: Sizes, name: Name, t: int, rs: seq<Rdata>, e: RdEntry, mem: seq<bv8>, now: int,
                            minTtl: nat, maxTtl: nat) {
    && Complete(sz, name, t, rs, e, mem)
    && exists m: nat :: e.expire == now + ToTicks(m) && Expiries(rs, e.rrs, now, minTtl, maxTtl, m)
  }

  /**
    `dns_cache_mk_rd_entry`: no entry if the type is not supported, if nothing matches or if there
    is no memory.  The matching records are out of the list even in the last case, in which nobody
    gives them back: no record is lost exactly if there is no record to take, or memory.
   */
  method MkRdEntry(nm: Naming, sz: Sizes, list: seq<Rdata>, name: Name, t0: int, now: int, minTtl: nat, maxTtl: nat,
                   malloc: bool)
    returns (e: Option<RdEntry>, mem: seq<bv8>, rest: seq<Rdata>, freed: seq<Rdata>)
    requires Sane(sz)
    ensures var t := TypeFor(nm, list, name, t0);
            var matched := Chosen(nm, list, name, t, true);
            && rest == (if Supported(t) then Chosen(nm, list, name, t, false) else list)
            && (e.Some? <==> Supported(t) && matched != [] && malloc)
            && (e.Some? ==> IsEntryOf(sz, name, t, matched, e.value, mem, now, minTtl, maxTtl))
            && freed == (if e.Some? then matched else [])
            && (NoneLost(list, rest, freed) <==> !Supported(t) || matched == [] || malloc)
  {
    var t, matched, size;
    t, matched, rest, size := TakeOut(nm, sz, list, name, t0);
    BlockSizesAligned(sz, t, matched);
    e, mem, freed := None, [], [];
    if size != 0 && malloc {
      var entry;
      entry, mem := LayOut(sz, name, t, matched, size, now, minTtl, maxTtl);
      freed := FreeRdataList(matched);
      e := Some(entry);
    }
    if Supported(t) {
      LostExactly(nm, list, name, t, freed);
    }
  }
}
