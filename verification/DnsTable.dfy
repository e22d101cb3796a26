/**
  The entries of the DNS cache and what the cache means: a flat list of entries in insertion
  order that is scanned from the front.  dns_cache.c keeps the entries in 1024 buckets instead;
  the lemmas here relate a bucket to the flat list.
 */
module DnsTable {
  import opened CaseHash
  import opened Options
  import opened Sequences
  import CircularList

  const T_A := 1
  const T_CNAME := 5
  const T_AAAA := 28
  const T_SRV := 33

  const MAX_CNAME_CHAIN := 10

  /** How names are hashed and compared (entry name first). */
  datatype Naming = Naming(hash: Name -> nat, same: (Name, Name) -> bool)

  /** `dns_hash_no` and the comparison of `_dns_hash_find`. */
  const DNS_NAMING := Naming(Bucket, NamesMatch)

  /** All the table needs: hashes in range, and a stored name hashes like the names it equals. */
  ghost predicate GoodNaming(nm: Naming) {
    && (forall n :: nm.hash(n) < HASH_SIZE)
    && (forall m, n | IsPlain(m) && nm.same(m, n) :: nm.hash(m) == nm.hash(n))
  }

  lemma DnsNamingIsGood()
    ensures GoodNaming(DNS_NAMING)
  {
    forall m, n | IsPlain(m) && NamesMatch(m, n)
      ensures Bucket(m) == Bucket(n)
    {
      OneBucketExactly(m);
    }
  }

  datatype RData =
    | Address(ip: seq<bv8>)
    | Cname(target: Name)
    | Srv(priority: nat, weight: nat, port: nat, host: Name)
    | OtherData

  datatype Rr = Rr(rdata: RData, expire: int)

  /** `struct dns_hash_entry`; everything but the reference count and what the links hold is fixed once it is built. */
  class Entry {
    const link: CircularList.Link           // next and prev, in the bucket
    const lastUsedLink: CircularList.Link   // last_used_lst
    const name: Name
    const rrType: int
    const rrs: seq<Rr>       // rr_lst
    const badName: bool      // DNS_FLAG_BAD_NAME
    const permanent: bool    // DNS_FLAG_PERMANENT
    const expire: int
    const totalSize: nat
    var refcnt: int
    var lastUsed: int

    constructor (name: Name, rrType: int, rrs: seq<Rr>, badName: bool, permanent: bool, expire: int, totalSize: nat,
                 now: int)
      ensures this.name == name && this.rrType == rrType && this.rrs == rrs && this.badName == badName
      ensures this.permanent == permanent && this.expire == expire && this.totalSize == totalSize
      ensures refcnt == 0 && lastUsed == now && fresh(link) && fresh(lastUsedLink) && link != lastUsedLink
    {
      link := new CircularList.Link();
      lastUsedLink := new CircularList.Link();
      this.name, this.rrType, this.rrs, this.badName := name, rrType, rrs, badName;
      this.permanent, this.expire, this.totalSize := permanent, expire, totalSize;
      refcnt, lastUsed := 0, now;
    }
  }

  /** A name without a NUL before its last character, and a record of the right kind in a CNAME entry. */
  ghost predicate WellFormed(e: Entry) {
    IsPlain(e.name) && (IsCname(e) ==> e.rrs[0].rdata.Cname?)
  }

  /** A CNAME entry that is not a negative one. */
  predicate IsCname(e: Entry) {
    e.rrType == T_CNAME && e.rrs != [] && !e.badName
  }

  function Target(e: Entry): Name {
    if IsCname(e) && e.rrs[0].rdata.Cname? then e.rrs[0].rdata.target else []
  }

  /** What one lookup asks for: a name and type, the time, and whether the DNS servers are up. */
  datatype Query = Query(name: Name, rrType: int, now: int, serversUp: bool)

  predicate Expired(e: Entry, q: Query) {
    q.serversUp && !e.permanent && q.now >= e.expire
  }

  predicate Hits(nm: Naming, e: Entry, q: Query) {
    !Expired(e, q) && nm.same(e.name, q.name) && (e.rrType == q.rrType || IsCname(e))
  }

  // ----- The flat list -----

  function FirstMatch(nm: Naming, s: seq<Entry>, q: Query): (r: Option<Entry>)
    ensures r.Some? ==> r.value in s && Hits(nm, r.value, q)
    ensures r.None? ==> forall e {:trigger Hits(nm, e, q)} | e in s :: !Hits(nm, e, q)
  {
    if s == [] then None else if Hits(nm, s[0], q) then Some(s[0]) else FirstMatch(nm, s[1..], q)
  }

  /** The expired entries met on the way to the first match. */
  function Swept(nm: Naming, s: seq<Entry>, q: Query): (r: set<Entry>)
    ensures forall e {:trigger e in r} | e in r :: e in s && Expired(e, q)
  {
    if s == [] || Hits(nm, s[0], q) then {}
    else (if Expired(s[0], q) then {s[0]} else {}) + Swept(nm, s[1..], q)
  }

  /** The lookup that continues this one if it hit a CNAME instead of the type it wants. */
  function Next(nm: Naming, s: seq<Entry>, q: Query): Option<Query> {
    match FirstMatch(nm, s, q)
    case None => None
    case Some(e) => if e.rrType == q.rrType then None else Some(q.(name := Target(e)))
  }

  datatype Answer = Answer(found: Option<Entry>, error: bool)

  /**
    The meaning of `_dns_hash_find`: the first unexpired match of the flat list; a CNAME is
    followed, at most MAX_CNAME_CHAIN + 1 times; an unfinished chain answers its last CNAME.
   */
  function FlatFind(nm: Naming, s: seq<Entry>, q: Query, hops: nat, last: Option<Entry>): Answer
    decreases MAX_CNAME_CHAIN + 2 - hops
  {
    var m, next := FirstMatch(nm, s, q), Next(nm, s, q);
    if m.None? then Answer(last, false)
    else if next.None? then Answer(m, false)
    else if hops > MAX_CNAME_CHAIN then Answer(None, true)
    else FlatFind(nm, s, next.value, hops + 1, m)
  }

  /** The entries a lookup uses, in order: each of them becomes the most recently used one. */
  function Used(nm: Naming, s: seq<Entry>, q: Query, hops: nat): (r: seq<Entry>)
    ensures forall e {:trigger e in r} | e in r :: e in s && !Expired(e, q)
    decreases MAX_CNAME_CHAIN + 2 - hops
  {
    var m, next := FirstMatch(nm, s, q), Next(nm, s, q);
    if m.None? then []
    else if next.None? || hops > MAX_CNAME_CHAIN then [m.value]
    else [m.value] + Used(nm, s, next.value, hops + 1)
  }

  /** The expired entries a lookup removes: in each bucket it visits, those before the match. */
  function SweptBy(nm: Naming, s: seq<Entry>, q: Query, hops: nat): (r: set<Entry>)
    ensures forall e {:trigger e in r} | e in r :: e in s && Expired(e, q)
    decreases MAX_CNAME_CHAIN + 2 - hops
  {
    var next := Next(nm, s, q);
    Swept(nm, InBucket(nm, s, nm.hash(q.name)), q) +
    if next.None? || hops > MAX_CNAME_CHAIN then {} else SweptBy(nm, s, next.value, hops + 1)
  }

  // ----- Buckets -----

  function InBucket(nm: Naming, s: seq<Entry>, h: nat): (r: seq<Entry>)
    ensures forall e {:trigger e in r} | e in r :: e in s && nm.hash(e.name) == h
    ensures forall e {:trigger e in r} | e in s && nm.hash(e.name) == h :: e in r
  {
    if s == [] then [] else (if nm.hash(s[0].name) == h then [s[0]] else []) + InBucket(nm, s[1..], h)
  }

  lemma {:induction false} InBucketConcat(nm: Naming, s: seq<Entry>, t: seq<Entry>, h: nat)
    ensures InBucket(nm, s + t, h) == InBucket(nm, s, h) + InBucket(nm, t, h)
  {
    if s == [] {
      assert s + t == t;
    } else {
      assert (s + t)[1..] == s[1..] + t;
      InBucketConcat(nm, s[1..], t, h);
    }
  }

  lemma {:induction false} InBucketMinus(nm: Naming, s: seq<Entry>, gone: set<Entry>, h: nat)
    ensures InBucket(nm, Minus(s, gone), h) == Minus(InBucket(nm, s, h), gone)
  {
    if s != [] {
      var head, r := if s[0] in gone then [] else [s[0]], Minus(s[1..], gone);
      var head' := if nm.hash(s[0].name) == h then [s[0]] else [];
      InBucketMinus(nm, s[1..], gone, h);
      InBucketConcat(nm, head, r, h);
      MinusConcat(head', InBucket(nm, s[1..], h), gone);
      assert InBucket(nm, head, h) == Minus(head', gone);
    }
  }

  /** Scanning the bucket of the name finds what scanning the flat list finds. */
  lemma {:induction false} BucketScan(nm: Naming, s: seq<Entry>, q: Query)
    requires GoodNaming(nm) && forall e | e in s :: WellFormed(e)
    ensures FirstMatch(nm, InBucket(nm, s, nm.hash(q.name)), q) == FirstMatch(nm, s, q)
  {
    if s != [] {
      BucketScan(nm, s[1..], q);
      var t := InBucket(nm, s[1..], nm.hash(q.name));
      if nm.hash(s[0].name) == nm.hash(q.name) {
        assert InBucket(nm, s, nm.hash(q.name)) == [s[0]] + t;
        assert ([s[0]] + t)[1..] == t;
      } else {
        assert InBucket(nm, s, nm.hash(q.name)) == t;
        assert WellFormed(s[0]) && !nm.same(s[0].name, q.name);
      }
    }
  }

  /**
    For one entry this is exact: its bucket answers for the list, whatever is asked, if and only if
    its name is plain.
   */
  lemma BucketScanExactly(e: Entry)
    ensures IsPlain(e.name) <==>
              forall q: Query ::
                FirstMatch(DNS_NAMING, InBucket(DNS_NAMING, [e], Bucket(q.name)), q) == FirstMatch(DNS_NAMING, [e], q)
  {
    var nm := DNS_NAMING;
    if IsPlain(e.name) {
      forall q: Query
        ensures FirstMatch(nm, InBucket(nm, [e], Bucket(q.name)), q) == FirstMatch(nm, [e], q)
      {
        OneBucketExactly(e.name);
        if Bucket(e.name) == Bucket(q.name) {
          assert InBucket(nm, [e], Bucket(q.name)) == [e];
        }
      }
    } else {
      OneBucketExactly(e.name);
      var name :| NamesMatch(e.name, name) && Bucket(name) != Bucket(e.name);
      var q := Query(name, e.rrType, 0, false);
      assert FirstMatch(nm, [e], q) == Some(e) && InBucket(nm, [e], Bucket(q.name)) == [];
    }
  }

  // ----- Removing expired entries does not change the meaning -----

  lemma {:induction false} FirstMatchMinus(nm: Naming, s: seq<Entry>, gone: set<Entry>, q: Query)
    requires forall e | e in gone :: Expired(e, q)
    ensures FirstMatch(nm, Minus(s, gone), q) == FirstMatch(nm, s, q)
    ensures Swept(nm, Minus(s, gone), q) + gone == Swept(nm, s, q) + gone
  {
    if s != [] {
      FirstMatchMinus(nm, s[1..], gone, q);
      var r := Minus(s[1..], gone);
      if s[0] !in gone {
        assert Minus(s, gone) == [s[0]] + r && ([s[0]] + r)[1..] == r;
      } else {
        assert Minus(s, gone) == r;
      }
    }
  }

  /** A lookup answers the same whether or not expired entries are still around. */
  lemma {:induction false} FindMinus(nm: Naming, s: seq<Entry>, gone: set<Entry>, q: Query, hops: nat,
                                     last: Option<Entry>)
    requires forall e | e in gone :: Expired(e, q)
    ensures FlatFind(nm, Minus(s, gone), q, hops, last) == FlatFind(nm, s, q, hops, last)
    ensures Used(nm, Minus(s, gone), q, hops) == Used(nm, s, q, hops)
    decreases MAX_CNAME_CHAIN + 2 - hops
  {
    FirstMatchMinus(nm, s, gone, q);
    var next := Next(nm, s, q);
    if next.Some? && hops <= MAX_CNAME_CHAIN {
      FindMinus(nm, s, gone, next.value, hops + 1, FirstMatch(nm, s, q));
    }
  }

  lemma BucketSweptMinus(nm: Naming, s: seq<Entry>, gone: set<Entry>, q: Query)
    requires forall e | e in gone :: Expired(e, q)
    ensures Swept(nm, InBucket(nm, Minus(s, gone), nm.hash(q.name)), q) + gone
         == Swept(nm, InBucket(nm, s, nm.hash(q.name)), q) + gone
  {
    InBucketMinus(nm, s, gone, nm.hash(q.name));
    FirstMatchMinus(nm, InBucket(nm, s, nm.hash(q.name)), gone, q);
  }

  /** Answers are never expired, and have the type asked for unless the chain is unfinished. */
  lemma {:induction false} AnswerIsLive(nm: Naming, s: seq<Entry>, q: Query, hops: nat, last: Option<Entry>)
    requires last.Some? ==> last.value in s && !Expired(last.value, q) && IsCname(last.value)
    ensures var a := FlatFind(nm, s, q, hops, last);
            && (a.found.Some? ==> a.found.value in s && !Expired(a.found.value, q))
            && (a.found.Some? && q.serversUp && !a.found.value.permanent ==> q.now < a.found.value.expire)
            && (a.found.Some? ==> a.found.value.rrType == q.rrType || IsCname(a.found.value))
            && (a.error ==> a.found.None?)
    decreases MAX_CNAME_CHAIN + 2 - hops
  {
    var next := Next(nm, s, q);
    if next.Some? && hops <= MAX_CNAME_CHAIN {
      AnswerIsLive(nm, s, next.value, hops + 1, FirstMatch(nm, s, q));
    }
  }

  /** At most eleven CNAMEs are followed; the twelfth makes the lookup give up. */
  lemma {:induction false} ChainIsBounded(nm: Naming, s: seq<Entry>, q: Query, hops: nat, last: Option<Entry>)
    requires hops <= MAX_CNAME_CHAIN + 1
    ensures |Used(nm, s, q, hops)| <= MAX_CNAME_CHAIN + 2 - hops
    ensures FlatFind(nm, s, q, hops, last).error ==> |Used(nm, s, q, hops)| == MAX_CNAME_CHAIN + 2 - hops
    decreases MAX_CNAME_CHAIN + 2 - hops
  {
    var next := Next(nm, s, q);
    if next.Some? && hops <= MAX_CNAME_CHAIN {
      ChainIsBounded(nm, s, next.value, hops + 1, FirstMatch(nm, s, q));
    }
  }

  // ----- Which name an entry answers for -----

  /**
    A step from a name to the next: the target of a CNAME that a lookup has found in the table of
    its time, or the name of an entry that is looked up again.
   */
  datatype Hop = Alias(cname: Entry, table: seq<Entry>, q: Query) | Again(e: Entry)

  /** The CNAME is what the table has for the name: in it, not expired, and the first of that kind. */
  ghost predicate IsSeen(nm: Naming, hop: Hop, name: Name)
    requires hop.Alias?
  {
    IsCname(hop.cname) && hop.q.name == name && FirstMatch(nm, hop.table, hop.q) == Some(hop.cname)
  }

  /** Where the hops end, from a name on. */
  function EndOf(name: Name, via: seq<Hop>): Name {
    if via == [] then name
    else match via[|via| - 1] case Alias(c, _, _) => Target(c) case Again(a) => a.name
  }

  /** The hops lead from the name to the entry. */
  ghost predicate LeadsTo(nm: Naming, name: Name, via: seq<Hop>, e: Entry)
    decreases |via|
  {
    if via == [] then e.name == name || nm.same(e.name, name)
    else
      match via[0]
      case Alias(c, _, _) => IsSeen(nm, via[0], name) && LeadsTo(nm, Target(c), via[1..], e)
      case Again(a) => (a.name == name || nm.same(a.name, name)) && LeadsTo(nm, a.name, via[1..], e)
  }

  /** One more hop. */
  lemma {:induction false} LeadsOn(nm: Naming, name: Name, via: seq<Hop>, a: Entry, hop: Hop, more: seq<Hop>, e: Entry)
    requires LeadsTo(nm, name, via, a)
    requires if hop.Alias? then IsSeen(nm, hop, EndOf(name, via)) && LeadsTo(nm, Target(hop.cname), more, e)
             else hop.e == a && LeadsTo(nm, a.name, more, e)
    ensures LeadsTo(nm, name, via + [hop] + more, e)
    decreases |via|
  {
    var all := via + [hop] + more;
    if via == [] {
      assert all[0] == hop && all[1..] == more;
    } else {
      var next := if via[0].Alias? then Target(via[0].cname) else via[0].e.name;
      assert all[0] == via[0] && all[1..] == via[1..] + [hop] + more;
      assert EndOf(next, via[1..]) == EndOf(name, via);
      LeadsOn(nm, next, via[1..], a, hop, more, e);
    }
  }

  /** The lookup that continues this one, unless it is the last. */
  function Further(nm: Naming, s: seq<Entry>, q: Query, hops: nat): (r: Option<Query>)
    ensures r.Some? ==> hops <= MAX_CNAME_CHAIN && r == Next(nm, s, q) && FirstMatch(nm, s, r.value).Some?
  {
    var next := Next(nm, s, q);
    if next.None? || hops > MAX_CNAME_CHAIN || FirstMatch(nm, s, next.value).None? then None else next
  }

  /** The CNAMEs a lookup follows. */
  function Followed(nm: Naming, s: seq<Entry>, q: Query, hops: nat): (r: seq<Hop>)
    ensures forall h | h in r :: h.Alias? && h.table == s && h.cname in s && !Expired(h.cname, q)
    decreases MAX_CNAME_CHAIN + 2 - hops
  {
    var further := Further(nm, s, q, hops);
    if further.None? then [] else [Alias(FirstMatch(nm, s, q).value, s, q)] + Followed(nm, s, further.value, hops + 1)
  }

  /** The last lookup of the chain. */
  function LastQuery(nm: Naming, s: seq<Entry>, q: Query, hops: nat): Query
    decreases MAX_CNAME_CHAIN + 2 - hops
  {
    var further := Further(nm, s, q, hops);
    if further.None? then q else LastQuery(nm, s, further.value, hops + 1)
  }

  /** The answer of a lookup is where its CNAMEs lead from the name asked for. */
  lemma {:induction false} AnswerIsLedTo(nm: Naming, s: seq<Entry>, q: Query, hops: nat, last: Option<Entry>)
    requires FirstMatch(nm, s, q).Some?
    ensures var a := FlatFind(nm, s, q, hops, last);
            a.found.Some? ==> LeadsTo(nm, q.name, Followed(nm, s, q, hops), a.found.value)
    decreases MAX_CNAME_CHAIN + 2 - hops
  {
    var m, further := FirstMatch(nm, s, q), Further(nm, s, q, hops);
    if further.Some? {
      AnswerIsLedTo(nm, s, further.value, hops + 1, m);
      var f := Followed(nm, s, further.value, hops + 1);
      assert ([Alias(m.value, s, q)] + f)[1..] == f;
    }
  }

  /** And it is the first match for the name at their end. */
  lemma AnswerIsMatch(nm: Naming, s: seq<Entry>, q: Query, last: Option<Entry>)
    requires FirstMatch(nm, s, q).Some?
    ensures var a := FlatFind(nm, s, q, 0, last);
            a.found.Some? ==> FirstMatch(nm, s, q.(name := EndOf(q.name, Followed(nm, s, q, 0)))) == a.found
  {
    LastAnswers(nm, s, q, 0, last);
    LastAsks(nm, s, q, 0);
  }

  lemma {:induction false} LastAnswers(nm: Naming, s: seq<Entry>, q: Query, hops: nat, last: Option<Entry>)
    requires FirstMatch(nm, s, q).Some?
    ensures var a := FlatFind(nm, s, q, hops, last);
            a.found.Some? ==> a.found == FirstMatch(nm, s, LastQuery(nm, s, q, hops))
    decreases MAX_CNAME_CHAIN + 2 - hops
  {
    var further := Further(nm, s, q, hops);
    if further.Some? {
      LastAnswers(nm, s, further.value, hops + 1, FirstMatch(nm, s, q));
    }
  }

  lemma {:induction false} LastAsks(nm: Naming, s: seq<Entry>, q: Query, hops: nat)
    ensures LastQuery(nm, s, q, hops) == q.(name := EndOf(q.name, Followed(nm, s, q, hops)))
    decreases MAX_CNAME_CHAIN + 2 - hops
  {
    var further := Further(nm, s, q, hops);
    if further.Some? {
      LastAsks(nm, s, further.value, hops + 1);
      EndOfCons(q.name, Alias(FirstMatch(nm, s, q).value, s, q), Followed(nm, s, further.value, hops + 1));
    }
  }

  lemma EndOfCons(name: Name, hop: Hop, via: seq<Hop>)
    requires hop.Alias?
    ensures EndOf(name, [hop] + via) == EndOf(Target(hop.cname), via)
  {}

  // ----- A table in which nothing expires -----

  ghost predicate AllPermanent(s: seq<Entry>) {
    forall e | e in s :: e.permanent
  }

  /** What such a table has for a name, at any time. */
  function Lookup(nm: Naming, s: seq<Entry>, name: Name, t: int): Answer {
    FlatFind(nm, s, Query(name, t, 0, false), 0, None)
  }

  lemma {:induction false} FirstMatchAnyTime(nm: Naming, s: seq<Entry>, q: Query, q': Query)
    requires AllPermanent(s) && q'.name == q.name && q'.rrType == q.rrType
    ensures FirstMatch(nm, s, q') == FirstMatch(nm, s, q)
  {
    if s != [] {
      FirstMatchAnyTime(nm, s[1..], q, q');
    }
  }

  lemma {:induction false} FindAnyTime(nm: Naming, s: seq<Entry>, q: Query, q': Query, hops: nat, last: Option<Entry>)
    requires AllPermanent(s) && q'.name == q.name && q'.rrType == q.rrType
    ensures FlatFind(nm, s, q', hops, last) == FlatFind(nm, s, q, hops, last)
    decreases MAX_CNAME_CHAIN + 2 - hops
  {
    FirstMatchAnyTime(nm, s, q, q');
    var next, next' := Next(nm, s, q), Next(nm, s, q');
    if next.Some? && hops <= MAX_CNAME_CHAIN {
      FindAnyTime(nm, s, next.value, next'.value, hops + 1, FirstMatch(nm, s, q));
    }
  }

  /** A lookup removes nothing from such a table. */
  lemma NothingSwept(nm: Naming, s: seq<Entry>, q: Query)
    requires AllPermanent(s)
    ensures Minus(s, SweptBy(nm, s, q, 0)) == s
  {
    MinusNothing(s, SweptBy(nm, s, q, 0));
  }
}
