/**
  The destination blacklist of dst_blacklist.c: a bucketed table whose searches, deletions and
  cleaner throw expired entries away.  Beside it runs a plain list, newest entry first, that never
  throws anything away and merely ignores what has expired; every answer of the table is the
  answer of that list.  Ticks are unbounded integers, and every operation holds the lock.
 */
module Blacklist {
  import opened Options

  const HASH_SIZE := 1024     // DST_BLST_HASH_SIZE
  const PROTO_NONE := 0

  /** The bits of an entry's flags; the reasons are not told apart. */
  datatype Flag = IsIpv6 | Permanent | Reason(bit: nat)

  datatype Entry = Entry(flags: set<Flag>, proto: int, port: int, addr: seq<bv8>, expire: int)

  /** A destination, as it is searched for: protocol (0 for any), address and port. */
  datatype Dst = Dst(proto: int, v6: bool, addr: seq<bv8>, port: int)

  predicate Expired(e: Entry, now: int) {
    now >= e.expire
  }

  predicate Matches(e: Entry, d: Dst) {
    && e.port == d.port && (IsIpv6 in e.flags <==> d.v6)
    && (e.proto == PROTO_NONE || d.proto == PROTO_NONE || e.proto == d.proto)
    && e.addr == d.addr
  }

  predicate Hits(e: Entry, d: Dst, now: int) {
    !Expired(e, now) && Matches(e, d)
  }

  /** Buckets are chosen by address and port; the protocol takes no part. */
  type Hash = (seq<bv8>, int) -> nat

  // ----- The list that never purges -----

  function Live(s: seq<Entry>, now: int): seq<Entry> {
    if s == [] then [] else if Expired(s[0], now) then Live(s[1..], now) else [s[0]] + Live(s[1..], now)
  }

  /** The flags of the first unexpired match. */
  function LookUp(s: seq<Entry>, d: Dst, now: int): Option<set<Flag>> {
    if s == [] then None else if Hits(s[0], d, now) then Some(s[0].flags) else LookUp(s[1..], d, now)
  }

  /** Another report on a destination that is already listed. */
  function Renew(s: seq<Entry>, d: Dst, now: int, flags: set<Flag>, expire: int): seq<Entry> {
    if s == [] then []
    else if Hits(s[0], d, now) then [s[0].(flags := s[0].flags + flags, expire := expire)] + s[1..]
    else [s[0]] + Renew(s[1..], d, now, flags, expire)
  }

  function Delete(s: seq<Entry>, d: Dst, now: int): seq<Entry> {
    if s == [] then [] else if Hits(s[0], d, now) then s[1..] else [s[0]] + Delete(s[1..], d, now)
  }

  function OnlyPermanent(s: seq<Entry>): seq<Entry> {
    if s == [] then []
    else if Permanent in s[0].flags then [s[0]] + OnlyPermanent(s[1..])
    else OnlyPermanent(s[1..])
  }

  function NewEntry(d: Dst, flags: set<Flag>, expire: int): Entry {
    Entry(flags, d.proto, d.port, d.addr, expire)
  }

  /** `dst_blacklist_add_ip` on the plain list. */
  function Report(s: seq<Entry>, d: Dst, now: int, flags: set<Flag>, expire: int): seq<Entry> {
    if LookUp(s, d, now).Some? then Renew(s, d, now, flags, expire) else [NewEntry(d, flags, expire)] + s
  }

  // ----- Operations do not depend on what has expired -----

  lemma {:induction false} LiveLater(s: seq<Entry>, now: int, later: int)
    requires now <= later
    ensures Live(Live(s, now), later) == Live(s, later)
  {
    if s != [] {
      LiveLater(s[1..], now, later);
      assert !Expired(s[0], now) ==> ([s[0]] + Live(s[1..], now))[1..] == Live(s[1..], now);
    }
  }

  lemma {:induction false} LookUpLive(s: seq<Entry>, d: Dst, now: int)
    ensures LookUp(Live(s, now), d, now) == LookUp(s, d, now)
  {
    if s != [] {
      LookUpLive(s[1..], d, now);
      assert !Expired(s[0], now) ==> ([s[0]] + Live(s[1..], now))[1..] == Live(s[1..], now);
    }
  }

  lemma {:induction false} RenewLive(s: seq<Entry>, d: Dst, now: int, flags: set<Flag>, expire: int)
    ensures Live(Renew(Live(s, now), d, now, flags, expire), now) == Live(Renew(s, d, now, flags, expire), now)
  {
    if s != [] {
      RenewLive(s[1..], d, now, flags, expire);
      var l := Live(s[1..], now);
      if !Expired(s[0], now) {
        assert ([s[0]] + l)[1..] == l;
        if Matches(s[0], d) {
          var e := s[0].(flags := s[0].flags + flags, expire := expire);
          assert ([e] + l)[1..] == l && ([e] + s[1..])[1..] == s[1..];
          LiveLater(s[1..], now, now);
        } else {
          var r, t := Renew(l, d, now, flags, expire), Renew(s[1..], d, now, flags, expire);
          assert ([s[0]] + r)[1..] == r && ([s[0]] + t)[1..] == t;
        }
      } else {
        var t := Renew(s[1..], d, now, flags, expire);
        assert ([s[0]] + t)[1..] == t;
      }
    }
  }

  lemma {:induction false} DeleteLive(s: seq<Entry>, d: Dst, now: int)
    ensures Live(Delete(Live(s, now), d, now), now) == Live(Delete(s, d, now), now)
  {
    if s != [] {
      DeleteLive(s[1..], d, now);
      var l := Live(s[1..], now);
      if !Expired(s[0], now) {
        assert ([s[0]] + l)[1..] == l;
        if Matches(s[0], d) {
          LiveLater(s[1..], now, now);
        } else {
          var r, t := Delete(l, d, now), Delete(s[1..], d, now);
          assert ([s[0]] + r)[1..] == r && ([s[0]] + t)[1..] == t;
        }
      } else {
        var t := Delete(s[1..], d, now);
        assert ([s[0]] + t)[1..] == t;
      }
    }
  }

  lemma {:induction false} PermanentLive(s: seq<Entry>, now: int)
    ensures Live(OnlyPermanent(s), now) == OnlyPermanent(Live(s, now))
  {
    if s != [] {
      PermanentLive(s[1..], now);
      var l, p := Live(s[1..], now), OnlyPermanent(s[1..]);
      assert ([s[0]] + l)[1..] == l && ([s[0]] + p)[1..] == p;
    }
  }

  // ----- Buckets -----

  function InBucket(hash: Hash, s: seq<Entry>, h: nat): seq<Entry> {
    if s == [] then []
    else if hash(s[0].addr, s[0].port) == h then [s[0]] + InBucket(hash, s[1..], h)
    else InBucket(hash, s[1..], h)
  }

  lemma {:induction false} LookUpBucket(hash: Hash, s: seq<Entry>, d: Dst, now: int)
    ensures LookUp(InBucket(hash, s, hash(d.addr, d.port)), d, now) == LookUp(s, d, now)
  {
    if s != [] {
      LookUpBucket(hash, s[1..], d, now);
      var b := InBucket(hash, s[1..], hash(d.addr, d.port));
      assert ([s[0]] + b)[1..] == b;
    }
  }

  lemma {:induction false} RenewBucket(hash: Hash, s: seq<Entry>, d: Dst, now: int, flags: set<Flag>, expire: int,
                                       h: nat)
    ensures InBucket(hash, Renew(s, d, now, flags, expire), h) ==
            if h == hash(d.addr, d.port) then Renew(InBucket(hash, s, h), d, now, flags, expire)
            else InBucket(hash, s, h)
  {
    if s != [] {
      RenewBucket(hash, s[1..], d, now, flags, expire, h);
      var e := s[0].(flags := s[0].flags + flags, expire := expire);
      var b, t := InBucket(hash, s[1..], h), Renew(s[1..], d, now, flags, expire);
      assert ([e] + s[1..])[1..] == s[1..] && ([s[0]] + t)[1..] == t && ([s[0]] + b)[1..] == b;
    }
  }

  lemma {:induction false} DeleteBucket(hash: Hash, s: seq<Entry>, d: Dst, now: int, h: nat)
    ensures InBucket(hash, Delete(s, d, now), h) ==
            if h == hash(d.addr, d.port) then Delete(InBucket(hash, s, h), d, now) else InBucket(hash, s, h)
  {
    if s != [] {
      DeleteBucket(hash, s[1..], d, now, h);
      var b, t := InBucket(hash, s[1..], h), Delete(s[1..], d, now);
      assert ([s[0]] + t)[1..] == t && ([s[0]] + b)[1..] == b;
    }
  }

  lemma {:induction false} PermanentBucket(hash: Hash, s: seq<Entry>, h: nat)
    ensures InBucket(hash, OnlyPermanent(s), h) == OnlyPermanent(InBucket(hash, s, h))
  {
    if s != [] {
      PermanentBucket(hash, s[1..], h);
      var b, p := InBucket(hash, s[1..], h), OnlyPermanent(s[1..]);
      assert ([s[0]] + b)[1..] == b && ([s[0]] + p)[1..] == p;
    }
  }

  /** From `clock` on, the table and the plain list hold the same unexpired entries in the same order. */
  ghost predicate Agree(hash: Hash, buckets: seq<seq<Entry>>, ref: seq<Entry>, clock: int) {
    && (forall a, p :: hash(a, p) < HASH_SIZE)
    && |buckets| == HASH_SIZE
    && forall h | 0 <= h < HASH_SIZE :: Live(buckets[h], clock) == Live(InBucket(hash, ref, h), clock)
  }

  lemma AgreeLater(hash: Hash, buckets: seq<seq<Entry>>, ref: seq<Entry>, clock: int, later: int)
    requires Agree(hash, buckets, ref, clock) && clock <= later
    ensures Agree(hash, buckets, ref, later)
  {
    forall h | 0 <= h < HASH_SIZE
      ensures Live(buckets[h], later) == Live(InBucket(hash, ref, h), later)
    {
      LiveLater(buckets[h], clock, later);
      LiveLater(InBucket(hash, ref, h), clock, later);
    }
  }

  /** The answer is in the bucket. */
  lemma AnswerIsInBucket(hash: Hash, buckets: seq<seq<Entry>>, ref: seq<Entry>, d: Dst, now: int)
    requires Agree(hash, buckets, ref, now)
    ensures LookUp(buckets[hash(d.addr, d.port)], d, now) == LookUp(ref, d, now)
  {
    var h := hash(d.addr, d.port);
    LookUpLive(buckets[h], d, now);
    LookUpLive(InBucket(hash, ref, h), d, now);
    LookUpBucket(hash, ref, d, now);
  }

  lemma RenewAgrees(hash: Hash, buckets: seq<seq<Entry>>, ref: seq<Entry>, d: Dst, now: int, flags: set<Flag>,
                    expire: int)
    requires Agree(hash, buckets, ref, now)
    ensures var h := hash(d.addr, d.port);
            Agree(hash, buckets[h := Renew(buckets[h], d, now, flags, expire)], Renew(ref, d, now, flags, expire), now)
  {
    forall h | 0 <= h < HASH_SIZE {
      RenewBucket(hash, ref, d, now, flags, expire, h);
    }
    var h := hash(d.addr, d.port);
    RenewLive(buckets[h], d, now, flags, expire);
    RenewLive(InBucket(hash, ref, h), d, now, flags, expire);
  }

  lemma DeleteAgrees(hash: Hash, buckets: seq<seq<Entry>>, ref: seq<Entry>, d: Dst, now: int)
    requires Agree(hash, buckets, ref, now)
    ensures var h := hash(d.addr, d.port);
            Agree(hash, buckets[h := Delete(buckets[h], d, now)], Delete(ref, d, now), now)
  {
    forall h | 0 <= h < HASH_SIZE {
      DeleteBucket(hash, ref, d, now, h);
    }
    var h := hash(d.addr, d.port);
    DeleteLive(buckets[h], d, now);
    DeleteLive(InBucket(hash, ref, h), d, now);
  }

  lemma PrependAgrees(hash: Hash, buckets: seq<seq<Entry>>, ref: seq<Entry>, e: Entry, clock: int)
    requires Agree(hash, buckets, ref, clock)
    ensures var h := hash(e.addr, e.port);
            Agree(hash, buckets[h := [e] + buckets[h]], [e] + ref, clock)
  {
    assert ([e] + ref)[1..] == ref;
    var h := hash(e.addr, e.port);
    var b, b' := buckets[h], InBucket(hash, ref, h);
    assert ([e] + b)[1..] == b && ([e] + b')[1..] == b';
  }
}
