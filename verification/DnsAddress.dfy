/**
  Looking a name up through the DNS cache (dns_cache.c): an entry for a name, and the addresses of the
  entry one after another, with one address family or the other.  Whatever is looked up, and whatever
  fails, no reference is lost or left behind.

  The clock, the watchdog's view of the DNS servers and the answers of the DNS servers are
  arbitrary at every moment; records have numbers of one byte, so lists have at most 255.
 */
module DnsAddress {
  import opened CaseHash
  import opened Options
  import opened Sequences
  import opened DnsTable
  import opened DnsCache
  import opened SrvSelect
  import opened SrvLaws
  import opened RecordOrder

  const E_DNS_EOR := 1
  const E_DNS_NO_SRV := 5
  const E_DNS_NO_IP := 7
  const E_DNS_NAME_TOO_LONG := 10
  const E_DNS_AF_MISMATCH := 11
  const E_DNS_CRITICAL := 13

  const MAX_DNS_NAME := 256
  const SRV_MAX_PREFIX_LEN := 11     // _sips._tcp.
  const SIP_PORT := 5060
  const SIPS_PORT := 5061
  const PROTO_UDP := 1
  const PROTO_TLS := 3

  /** DNS_IPV4_ONLY, DNS_IPV6_ONLY, DNS_IPV6_FIRST, DNS_SRV_RR_LB */
  datatype Flags = Flags(ipv4Only: bool, ipv6Only: bool, ipv6First: bool, srvLb: bool)

  type Ip = seq<bv8>

  /** An answer of the DNS servers, and whether it goes into the cache. */
  datatype Reply = Reply(rrs: seq<Rr>, bad: bool, expire: int, size: nat, now: int, cached: bool)

  /**
    What lies outside: reading an address literal, SRV prefixes, random numbers, the cache's limit
    and its policy, and what the DNS servers answer to a name and a type at a moment, if anything.
   */
  datatype Env = Env(
    str2ip: Name -> Option<Ip>,
    str2ip6: Name -> Option<Ip>,
    srvPrefix: int -> Option<Name>,
    rand: nat -> nat,
    maxMem: nat,
    delNonexp: bool,
    answer: (Name, int, int) -> Option<Reply>)

  function AnswerTo(env: Env, name: Name, t: int, moment: int): Option<Reply> {
    env.answer(name, t, moment)
  }

  /** The servers do not answer. */
  ghost predicate Silent(env: Env) {
    forall name, t, moment :: AnswerTo(env, name, t, moment).None?
  }

  /** Nothing can change: the servers are silent, and nothing in the table expires. */
  ghost predicate Still(env: Env, s: seq<Entry>) {
    Silent(env) && AllPermanent(s)
  }

  /** Then the table stays as it is. */
  ghost predicate Quiet(env: Env, s: seq<Entry>, s': seq<Entry>) {
    Still(env, s) ==> s' == s
  }

  function RefTo(e: Entry?): multiset<Entry> {
    if e == null then multiset{} else multiset{e}
  }

  predicate IsShort(e: Entry?) {
    e == null || |e.rrs| <= MAX_RECORDS
  }

  ghost predicate AllShort(s: seq<Entry>) {
    forall e | e in s :: |e.rrs| <= MAX_RECORDS
  }

  /** The cache is in order and the references outside it are `held`. */
  ghost predicate Holding(c: Cache, held: multiset<Entry>)
    reads c, c.live
  {
    c.Valid() && c.held == held && AllShort(c.order)
  }

  /** Where an entry comes from: the host looked up, and the hops from there to the entry. */
  datatype Trail = Trail(host: Name, via: seq<Hop>)

  ghost predicate Found(nm: Naming, tr: Trail, e: Entry?) {
    e != null ==> LeadsTo(nm, tr.host, tr.via, e)
  }

  /** The name at the end of a trail. */
  function EndName(tr: Trail): Name {
    EndOf(tr.host, tr.via)
  }

  // ----- Getting an entry -----

  lemma ShortMinus(s: seq<Entry>, gone: set<Entry>)
    requires AllShort(s)
    ensures AllShort(Minus(s, gone))
  {}

  lemma ShortAfter(s: seq<Entry>, gone: set<Entry>, more: seq<Entry>)
    requires AllShort(s) && AllShort(more)
    ensures AllShort(Minus(s, gone) + more)
  {}

  /** An entry somebody holds is offered to the cache. */
  method Offer(c: Cache, e: Entry, env: Env, now: int, ghost held: multiset<Entry>)
    requires Holding(c, held) && e in held && e !in c.order && WellFormed(e) && IsShort(e)
    modifies c, c.known
    ensures Holding(c, held) && c.known == old(c.known)
  {
    assert e in c.live && c.known + {e} == c.known;
    var ok, k := c.Add(e, env.maxMem, env.delNonexp, now);
    ShortAfter(old(c.order), Doomed(old(c.lastUsed)[..k], Purge(false, !env.delNonexp, now)), if ok then [e] else []);
  }

  /** An answer becomes an entry, which may or may not go into the cache. */
  method NewEntry(c: Cache, name: Name, t: int, r: Reply, env: Env, ghost held: multiset<Entry>) returns (e: Entry)
    requires Holding(c, held) && |r.rrs| <= MAX_RECORDS
    modifies c, c.known
    ensures Holding(c, held + RefTo(e)) && IsShort(e) && e.rrType == t && e.name == name
    ensures forall x | x in c.known :: x in old(c.known) || fresh(x)
  {
    e := new Entry(name, t, r.rrs, r.bad, false, r.expire, r.size, r.now);
    c.Adopt(e);
    if r.cached && IsPlain(name) && t != T_CNAME {
      Offer(c, e, env, r.now, held + multiset{e});
    }
  }

  /** A request to the DNS servers: nothing, or a new entry. */
  method DoRequest(c: Cache, name: Name, t: int, env: Env, ghost held: multiset<Entry>) returns (e: Entry?)
    requires Holding(c, held)
    modifies c, c.known
    ensures Holding(c, held + RefTo(e)) && IsShort(e) && (e != null ==> e.rrType == t && e.name == name)
    ensures Silent(env) ==> e == null && c.order == old(c.order)
    ensures forall x | x in c.known :: x in old(c.known) || fresh(x)
  {
    var moment: int := *;
    var answer := AnswerTo(env, name, t, moment);
    if answer.Some? && |answer.value.rrs| <= MAX_RECORDS {
      e := NewEntry(c, name, t, answer.value, env, held);
    } else {
      e := null;
      NoRef(held);
    }
  }

  /** `dns_hash_put` */
  method PutEntry(c: Cache, e: Entry, ghost held: multiset<Entry>)
    requires Holding(c, held + RefTo(e))
    modifies c`held, c`live, e`refcnt
    ensures Holding(c, held)
  {
    assert held + RefTo(e) - multiset{e} == held;
    c.HashPut(e);
  }

  /** The hops of a trail are CNAMEs that were in the table s. */
  ghost predicate SeenIn(tr: Trail, s: seq<Entry>) {
    forall hop | hop in tr.via :: hop.Alias? && hop.table == s
  }

  /** A lookup in s at the time of q finds e at the end of the trail. */
  ghost predicate EndsAt(nm: Naming, s: seq<Entry>, q: Query, tr: Trail, e: Entry?) {
    e != null ==> IfAny(FirstMatch(nm, s, q.(name := EndName(tr)))) == e
  }

  /** `dns_hash_get` */
  method Get(c: Cache, name: Name, t: int, ghost held: multiset<Entry>)
    returns (e: Entry?, err: bool, ghost tr: Trail, ghost q: Query)
    requires Holding(c, held)
    modifies c, c.known
    ensures Holding(c, held + RefTo(e)) && IsShort(e) && c.known == old(c.known)
    ensures (e != null ==> e.rrType == t || IsCname(e)) && tr.host == name && Found(c.nm, tr, e)
    ensures SeenIn(tr, old(c.order)) && EndsAt(c.nm, old(c.order), q, tr, e)
    ensures AllPermanent(old(c.order)) ==>
              c.order == old(c.order) && e == IfAny(Lookup(c.nm, old(c.order), name, t).found)
  {
    var now: int, up: bool := *, *;
    var found;
    q := Query(name, t, now, up);
    found, err := c.HashGet(Query(name, t, now, up));
    AnswerIsLive(c.nm, old(c.order), q, 0, None);
    ShortMinus(old(c.order), SweptBy(c.nm, old(c.order), q, 0));
    e := IfAny(found);
    tr := LookupTrail(c.nm, old(c.order), q);
    LookupAnyTime(c.nm, old(c.order), q);
  }

  function IfAny(found: Option<Entry>): Entry? {
    if found.Some? then found.value else null
  }

  lemma LookupTrail(nm: Naming, s: seq<Entry>, q: Query) returns (tr: Trail)
    ensures tr.host == q.name && SeenIn(tr, s)
    ensures var e := IfAny(FlatFind(nm, s, q, 0, None).found); Found(nm, tr, e) && EndsAt(nm, s, q, tr, e)
  {
    tr := Trail(q.name, Followed(nm, s, q, 0));
    if FirstMatch(nm, s, q).Some? {
      AnswerIsLedTo(nm, s, q, 0, None);
      AnswerIsMatch(nm, s, q, None);
    }
  }

  lemma LookupAnyTime(nm: Naming, s: seq<Entry>, q: Query)
    ensures AllPermanent(s) ==> Minus(s, SweptBy(nm, s, q, 0)) == s
    ensures AllPermanent(s) ==> FlatFind(nm, s, q, 0, None) == Lookup(nm, s, q.name, q.rrType)
  {
    if AllPermanent(s) {
      NothingSwept(nm, s, q);
      FindAnyTime(nm, s, Query(q.name, q.rrType, 0, false), q, 0, None);
    }
  }

  /** No reference to no entry. */
  lemma NoRef(held: multiset<Entry>)
    ensures held + RefTo(null) == held
  {}

  /** The first half of `dns_get_entry`: the cache, then the DNS servers. */
  method GetOrRequest(c: Cache, name: Name, t: int, env: Env, ghost held: multiset<Entry>)
    returns (e: Entry?, ghost tr: Trail, ghost q: Query)
    requires Holding(c, held)
    modifies c, c.known
    ensures Holding(c, held + RefTo(e)) && IsShort(e)
    ensures (e != null ==> e.rrType == t || IsCname(e)) && tr.host == name && Found(c.nm, tr, e)
    ensures SeenIn(tr, old(c.order)) && (e != null && e.rrType != t ==> EndsAt(c.nm, old(c.order), q, tr, e))
    ensures Still(env, old(c.order)) ==>
              c.order == old(c.order) && e == IfAny(Lookup(c.nm, old(c.order), name, t).found)
    ensures forall x | x in c.known :: x in old(c.known) || fresh(x)
  {
    var err;
    e, err, tr, q := Get(c, name, t, held);
    if e != null || err {
      return;
    }
    NoRef(held);
    e := DoRequest(c, name, t, env, held);
    tr := Trail(name, []);
    RequestTrail(c.nm, name, e, old(c.order));
  }

  lemma RequestTrail(nm: Naming, name: Name, e: Entry?, s: seq<Entry>)
    requires e != null ==> e.name == name
    ensures Found(nm, Trail(name, []), e) && SeenIn(Trail(name, []), s)
  {}

  /** A CNAME that the cache could not follow: it is given back and the servers are asked for its target. */
  method Follow(c: Cache, cname: Entry, t: int, env: Env, ghost held: multiset<Entry>, ghost tr0: Trail, ghost hop: Hop)
    returns (e: Entry?, ghost tr: Trail)
    requires Holding(c, held + RefTo(cname)) && IsCname(cname) && Found(c.nm, tr0, cname)
    requires hop.Alias? && hop.cname == cname && IsSeen(c.nm, hop, EndName(tr0))
    modifies c, c.known
    ensures Holding(c, held + RefTo(e)) && IsShort(e) && (e != null ==> e.rrType == t)
    ensures tr == Trail(tr0.host, tr0.via + [hop]) && Found(c.nm, tr, e)
    ensures Silent(env) ==> e == null && c.order == old(c.order)
    ensures forall x | x in c.known :: x in old(c.known) || fresh(x)
  {
    var target := Target(cname);
    PutEntry(c, cname, held);
    e := DoRequest(c, target, t, env, held);
    tr := Trail(tr0.host, tr0.via + [hop]);
    FollowedOnce(c.nm, tr0, cname, hop, e);
  }

  lemma FollowedOnce(nm: Naming, tr: Trail, cname: Entry, hop: Hop, e: Entry?)
    requires Found(nm, tr, cname) && hop.Alias? && IsSeen(nm, hop, EndName(tr))
    requires e != null ==> e.name == Target(hop.cname)
    ensures Found(nm, Trail(tr.host, tr.via + [hop]), e)
  {
    if e != null {
      LeadsOn(nm, tr.host, tr.via, cname, hop, [], e);
      assert tr.via + [hop] + [] == tr.via + [hop];
    }
  }

  /** What a table that stays as it is has for a name: an entry of the type, with records. */
  function EntryFor(nm: Naming, s: seq<Entry>, name: Name, t: int): Entry? {
    var a := Lookup(nm, s, name, t);
    if a.found.Some? && a.found.value.rrType == t && HasRecords(a.found.value) then a.found.value else null
  }

  predicate HasRecords(e: Entry) {
    e.rrs != [] && !e.badName
  }

  lemma EntryForIsThere(nm: Naming, s: seq<Entry>, name: Name, t: int)
    ensures var e := EntryFor(nm, s, name, t); e != null ==> e in s && e.rrType == t && HasRecords(e)
  {
    AnswerIsLive(nm, s, Query(name, t, 0, false), 0, None);
  }

  /** The middle of `dns_get_entry`: a CNAME at the end is followed once more. */
  method GetOrFollow(c: Cache, name: Name, t: int, env: Env, ghost held: multiset<Entry>)
    returns (e: Entry?, ghost tr: Trail)
    requires Holding(c, held)
    modifies c, c.known
    ensures Holding(c, held + RefTo(e)) && IsShort(e) && (e != null ==> e.rrType == t)
    ensures tr.host == name && Found(c.nm, tr, e) && SeenIn(tr, old(c.order))
    ensures Still(env, old(c.order)) ==> c.order == old(c.order)
    ensures Still(env, old(c.order)) ==>
              var found := Lookup(c.nm, old(c.order), name, t).found;
              e == if found.Some? && found.value.rrType == t then found.value else null
    ensures forall x | x in c.known :: x in old(c.known) || fresh(x)
  {
    ghost var q;
    e, tr, q := GetOrRequest(c, name, t, env, held);
    if e != null && e.rrType == T_CNAME && t != T_CNAME {
      ghost var hop := Alias(e, old(c.order), q.(name := EndName(tr)));
      e, tr := Follow(c, e, t, env, held, tr, hop);
    }
  }

  /**
    `dns_get_entry`: no entry and no reference, or an entry of the type with records, to which the
    name leads over CNAMEs of the table, and a reference to it.
   */
  method GetEntry(c: Cache, name: Name, t: int, env: Env, ghost held: multiset<Entry>)
    returns (e: Entry?, ghost tr: Trail)
    requires Holding(c, held)
    modifies c, c.known
    ensures Holding(c, held + RefTo(e)) && IsShort(e) && (e != null ==> e.rrType == t && e.rrs != [] && !e.badName)
    ensures tr.host == name && Found(c.nm, tr, e) && SeenIn(tr, old(c.order))
    ensures Quiet(env, old(c.order), c.order)
    ensures Still(env, old(c.order)) ==> e == EntryFor(c.nm, old(c.order), name, t)
    ensures forall x | x in c.known :: x in old(c.known) || fresh(x)
  {
    e, tr := GetOrFollow(c, name, t, env, held);
    if e != null && !HasRecords(e) {
      PutEntry(c, e, held);
      NoRef(held);
      e := null;
    }
  }

  // ----- Addresses -----

  /** A time used for an entry: never past the end of its life. */
  predicate InLife(e: Entry, v: View) {
    v.permanent == e.permanent && v.now < e.expire
  }

  method ViewOf(e: Entry) returns (v: View)
    ensures InLife(e, v)
  {
    var now: int, up: bool := *, *;
    v := View(e.permanent, up, if now >= e.expire then e.expire - 1 else now);
  }

  function IpOf(rr: Rr): Ip {
    if rr.rdata.Address? then rr.rdata.ip else []
  }

  /** The address in a record; a record without one has none. */
  ghost predicate IsIpOf(rr: Rr, ip: Ip) {
    match rr.rdata case Address(a) => ip == a case _ => ip == []
  }

  /** Record k is the first from number no on that may be returned at time v, a time in the life of the entry. */
  ghost predicate GivesIp(e: Entry, no: nat, v: View, k: nat, ip: Ip) {
    && v.permanent == e.permanent && v.now < e.expire
    && no <= k < |e.rrs| && Usable(e.rrs[k], v) && (forall j | no <= j < k :: !Usable(e.rrs[j], v))
    && IsIpOf(e.rrs[k], ip)
  }

  /** ip is the next address of the entry from number no on; without an entry the name was the address. */
  ghost predicate Yields(e: Entry?, no: nat, ip: Ip) {
    e != null ==> exists v, k :: GivesIp(e, no, v, k, ip)
  }

  ghost predicate IsDryAt(e: Entry, no: nat, v: View) {
    && v.permanent == e.permanent && v.now < e.expire
    && forall j | no <= j < |e.rrs| :: !Usable(e.rrs[j], v)
  }

  /** At some time in the life of the entry no record from number no on may be returned. */
  ghost predicate IsDry(e: Entry, no: nat) {
    exists v :: IsDryAt(e, no, v)
  }

  function Literal(env: Env, t: int, name: Name): Option<Ip> {
    if t == T_A then env.str2ip(name) else env.str2ip6(name)
  }

  /** The name spells the address. */
  predicate IsLiteral(env: Env, name: Name, ip: Ip) {
    env.str2ip(name) == Some(ip) || env.str2ip6(name) == Some(ip)
  }

  /** A table that stays as it is has an address of this type for the name. */
  predicate Has(env: Env, nm: Naming, s: seq<Entry>, name: Name, t: int) {
    Literal(env, t, name).Some? || EntryFor(nm, s, name, t) != null
  }

  /** The number, or the end of the list if that comes first. */
  function Capped(e: Entry, no: nat): nat {
    if no < |e.rrs| then no else |e.rrs|
  }

  lemma RecordFound(e: Entry, no: nat, v: View, k: nat)
    requires InLife(e, v) && k == FirstFresh(e.rrs, Skipped(e.rrs, no), v)
    ensures k < |e.rrs| ==> GivesIp(e, no, v, k, IpOf(e.rrs[k]))
    ensures k == |e.rrs| ==> IsDryAt(e, no, v)
    ensures e.permanent && no < |e.rrs| ==> k == no
  {
    if k < |e.rrs| {
      PlainReturns(e.rrs, v, no, k);
    } else {
      forall j | no <= j < |e.rrs|
        ensures !Usable(e.rrs[j], v)
      {
        assert !Fresh(e.rrs[j], v);
      }
    }
  }

  /** The second half of `dns_a_resolve` and `dns_aaaa_resolve`: the next address of the entry. */
  method NextIp(e: Entry, no0: nat) returns (no: nat, ret: int, ip: Ip)
    ensures ret == 0 || ret == -E_DNS_EOR
    ensures if ret == 0 then Yields(e, no0, ip) else IsDry(e, no0)
    ensures no == Capped(e, no0)
    ensures e.permanent && no0 < |e.rrs| ==> ret == 0 && IsIpOf(e.rrs[no0], ip)
  {
    var v := ViewOf(e);
    var k;
    no, k := EntryGetRr(e.rrs, no0, v);
    RecordFound(e, no0, v, k);
    if k < |e.rrs| {
      ret, ip := 0, IpOf(e.rrs[k]);
    } else {
      ret, ip := -E_DNS_EOR, [];
    }
  }

  /** The next address of an entry just looked up: the first, if the entry is permanent. */
  method FirstIp(e: Entry, env: Env, ghost nm: Naming, ghost s: seq<Entry>, name: Name, t: int)
    returns (no: nat, ret: int, ip: Ip)
    requires Still(env, s) ==> e == EntryFor(nm, s, name, t)
    ensures (ret == 0 || ret == -E_DNS_EOR) && no == 0
    ensures ret == 0 ==> Yields(e, 0, ip)
    ensures Still(env, s) ==> ret == 0 && e.rrs != [] && IsIpOf(e.rrs[0], ip)
  {
    EntryForIsThere(nm, s, name, t);
    no, ret, ip := NextIp(e, 0);
  }

  /** In a table that stays as it is a name that is no address gives the first address of its entry. */
  ghost predicate FirstOf(env: Env, nm: Naming, s: seq<Entry>, name: Name, t: int, e: Entry?, no: nat, ip: Ip) {
    Still(env, s) && Literal(env, t, name).None? && EntryFor(nm, s, name, t) != null ==>
      e == EntryFor(nm, s, name, t) && no == 0 && e.rrs != [] && IsIpOf(e.rrs[0], ip)
  }

  /** `dns_a_resolve` and `dns_aaaa_resolve` without an entry: the name is an address, or it is looked up. */
  method AddrLookUp(c: Cache, no0: nat, name: Name, t: int, env: Env, ghost held: multiset<Entry>)
    returns (e: Entry?, no: nat, ret: int, ip: Ip, ghost tr: Trail)
    requires Holding(c, held)
    modifies c, c.known
    ensures Found(c.nm, tr, e) && tr.host == name && SeenIn(tr, old(c.order))
    ensures Holding(c, held + RefTo(e)) && IsShort(e) && (e == null || e.rrType == t)
    ensures ret == 0 ==> Yields(e, 0, ip) && (e == null ==> tr == Trail(name, []))
    ensures ret == 0 && e == null ==> (if t == 1 then env.str2ip(name) else env.str2ip6(name)) == Some(ip)
    ensures ret <= 0 && (ret < 0 ==> ret == if e == null then -E_DNS_NO_IP else -E_DNS_EOR)
    ensures e != null ==> no == 0
    ensures Quiet(env, old(c.order), c.order)
    ensures Still(env, old(c.order)) ==>
              (ret == 0 <==> Has(env, c.nm, old(c.order), name, t)) && (ret < 0 ==> e == null)
    ensures FirstOf(env, c.nm, old(c.order), name, t, e, no, ip)
    ensures forall x | x in c.known :: x in old(c.known) || fresh(x)
  {
    var literal := Literal(env, t, name);
    if literal.Some? {
      NoRef(held);
      return null, 0, 0, literal.value, Trail(name, []);
    }
    e, tr := GetEntry(c, name, t, env, held);
    if e == null {
      no, ret, ip := no0, -E_DNS_NO_IP, [];
    } else {
      no, ret, ip := FirstIp(e, env, c.nm, old(c.order), name, t);
    }
  }

  /** The number a call asks an entry for: the caller's, or 0 if it is not the caller's entry. */
  function Asked(e0: Entry?, no0: nat, e: Entry?): nat {
    if e0 != null && e == e0 then no0 else 0
  }

  predicate IsAddressEntry(e: Entry?) {
    e != null && e.rrType in {1, 28}
  }

  /**
    A call with an entry and a number: a success is the next address from the number on; anything but
    an address of this entry only if the entry has run dry; if the entry does not expire, the address
    with exactly this number, if there is one.
   */
  ghost predicate Served(e0: Entry?, no0: nat, e: Entry?, no: nat, ret: int, ip: Ip) {
    && (ret == 0 ==> Yields(e, Asked(e0, no0, e), ip) && (e != null ==> no == Capped(e, Asked(e0, no0, e))))
    && (IsAddressEntry(e0) ==>
          && ((ret == 0 && e == e0) || IsDry(e0, no0))
          && (e0.permanent && no0 < |e0.rrs| ==> ret == 0 && e == e0 && IsIpOf(e0.rrs[no0], ip)))
  }

  /**
    `dns_a_resolve` and `dns_aaaa_resolve`: looks the name up if there is no entry yet, and takes
    the next address of the entry.  The reference to the entry is the caller's, before and after.
   */
  method AddrResolve(c: Cache, e0: Entry?, no0: nat, name: Name, t: int, env: Env, ghost held: multiset<Entry>,
                     ghost tr0: Trail)
    returns (e: Entry?, no: nat, ret: int, ip: Ip, ghost tr: Trail)
    requires Holding(c, held + RefTo(e0)) && IsShort(e0) && Found(c.nm, tr0, e0)
    modifies c, c.known
    ensures Found(c.nm, tr, e) && if e0 == null then tr.host == name && SeenIn(tr, old(c.order)) else tr == tr0
    ensures Holding(c, held + RefTo(e)) && IsShort(e) && (if e0 != null then e == e0 else e == null || e.rrType == t)
    ensures Served(e0, no0, e, no, ret, ip)
    ensures ret == 0 && e == null ==> (if t == 1 then env.str2ip(name) else env.str2ip6(name)) == Some(ip)
    ensures ret == 0 && e == null ==> tr == Trail(name, [])
    ensures e != null ==> no == Capped(e, Asked(e0, no0, e))
    ensures ret <= 0 && (ret < 0 ==> ret == if e == null then -E_DNS_NO_IP else -E_DNS_EOR)
    ensures Quiet(env, old(c.order), c.order)
    ensures e0 == null && Still(env, old(c.order)) ==>
              (ret == 0 <==> Has(env, c.nm, old(c.order), name, t)) && (ret < 0 ==> e == null)
    ensures e0 == null ==> FirstOf(env, c.nm, old(c.order), name, t, e, no, ip)
    ensures forall x | x in c.known :: x in old(c.known) || fresh(x)
  {
    if e0 == null {
      NoRef(held);
      e, no, ret, ip, tr := AddrLookUp(c, no0, name, t, env, held);
    } else {
      e, tr := e0, tr0;
      no, ret, ip := NextIp(e0, no0);
    }
  }

  lemma AgainLeads(nm: Naming, tr0: Trail, orig: Entry, tr: Trail, e: Entry?)
    requires Found(nm, tr0, orig) && tr.host == orig.name && Found(nm, tr, e)
    ensures var all := Trail(tr0.host, tr0.via + [Again(orig)] + tr.via);
            Found(nm, all, e) && EndName(all) == EndName(tr)
  {
    if e != null {
      LeadsOn(nm, tr0.host, tr0.via, orig, Again(orig), tr.via, e);
    }
  }

  /** The entry runs out: the other address family, and only then the old entry is given back. */
  method FallBack(c: Cache, orig: Entry, t: int, env: Env, ghost held: multiset<Entry>, ghost tr0: Trail)
    returns (e: Entry?, no: nat, ret: int, ip: Ip, ghost tr: Trail)
    requires Holding(c, held + RefTo(orig)) && Found(c.nm, tr0, orig)
    modifies c, c.known
    ensures Holding(c, held + RefTo(e)) && IsShort(e) && ret <= 0 && (e == null || e.rrType == t)
    ensures ret == 0 ==> Yields(e, 0, ip) && (e == null ==> IsLiteral(env, EndName(tr), ip))
    ensures (e != null ==> no == 0) && Found(c.nm, tr, e) && tr.host == tr0.host
    ensures Quiet(env, old(c.order), c.order)
    ensures forall x | x in c.known :: x in old(c.known) || fresh(x)
  {
    ghost var tr1;
    e, no, ret, ip, tr1 := AddrLookUp(c, 0, orig.name, t, env, held + RefTo(orig));
    AgainLeads(c.nm, tr0, orig, tr1, e);
    tr := Trail(tr0.host, tr0.via + [Again(orig)] + tr1.via);
    assert held + RefTo(orig) + RefTo(e) == held + RefTo(e) + RefTo(orig);
    PutEntry(c, orig, held + RefTo(e));
  }

  /** The address families that the flags let through, if they do not contradict each other. */
  ghost predicate Family(flags: Flags, e: Entry?) {
    e != null && !flags.ipv6First && flags.ipv4Only != flags.ipv6Only ==>
      e.rrType == if flags.ipv4Only then T_A else T_AAAA
  }

  /** The address families of a first call, and whether the second is looked up when the first has no address. */
  function FirstType(flags: Flags): int {
    if flags.ipv6First || flags.ipv6Only then T_AAAA else T_A
  }

  function SecondType(flags: Flags): int {
    if flags.ipv6First then T_A else T_AAAA
  }

  predicate TriesBoth(flags: Flags) {
    flags.ipv6First || !(flags.ipv6Only || flags.ipv4Only)
  }

  /**
    A table that stays as it is has an address for the name: an IPv4 one unless only IPv6 is wanted, an
    IPv6 one unless only IPv4 is; IPv6 first wants both.
   */
  predicate Resolvable(env: Env, nm: Naming, s: seq<Entry>, name: Name, flags: Flags) {
    || ((flags.ipv6First || !flags.ipv6Only) && Has(env, nm, s, name, 1))
    || ((flags.ipv6First || flags.ipv6Only || !flags.ipv4Only) && Has(env, nm, s, name, 28))
  }

  /** The first call of `dns_ip_resolve`: one address family, then perhaps the other. */
  method IpResolveFirst(c: Cache, no0: nat, name: Name, flags: Flags, env: Env, ghost held: multiset<Entry>)
    returns (e: Entry?, no: nat, ret: int, ip: Ip, ghost tr: Trail)
    requires Holding(c, held + RefTo(null))
    modifies c, c.known
    ensures Holding(c, held + RefTo(e)) && IsShort(e) && ret <= 0
    ensures Family(flags, e) && (ret == 0 && e == null ==> IsLiteral(env, EndName(tr), ip))
    ensures (ret == 0 ==> Yields(e, 0, ip)) && (e != null ==> no == 0 && IsAddressEntry(e))
    ensures Found(c.nm, tr, e) && tr.host == name
    ensures Quiet(env, old(c.order), c.order)
    ensures Still(env, old(c.order)) ==> (ret == 0 <==> Resolvable(env, c.nm, old(c.order), name, flags))
    ensures FirstOf(env, c.nm, old(c.order), name, if flags.ipv6First || flags.ipv6Only then 28 else 1, e, no, ip)
    ensures forall x | x in c.known :: x in old(c.known) || fresh(x)
  {
    NoRef(held);
    e, no, ret, ip, tr := AddrLookUp(c, no0, name, FirstType(flags), env, held);
    if ret < 0 && TriesBoth(flags) {
      e, no, ret, ip, tr := AddrResolve(c, e, no, name, SecondType(flags), env, held, tr);
    }
  }

  /** A further call of `dns_ip_resolve`: the next address of the entry, then perhaps the other address family. */
  method IpResolveNext(c: Cache, e0: Entry, no0: nat, flags: Flags, env: Env, ghost held: multiset<Entry>,
                       ghost tr0: Trail)
    returns (e: Entry?, no: nat, ret: int, ip: Ip, ghost tr: Trail)
    requires Holding(c, held + RefTo(e0)) && IsShort(e0) && Found(c.nm, tr0, e0)
    modifies c, c.known
    ensures Holding(c, held + RefTo(e)) && IsShort(e) && ret <= 0
    ensures (Family(flags, e0) ==> Family(flags, e)) && (IsAddressEntry(e0) && e != null ==> IsAddressEntry(e))
    ensures Served(e0, no0, e, no, ret, ip) && (ret == 0 && e == null ==> IsLiteral(env, EndName(tr), ip))
    ensures Found(c.nm, tr, e) && tr.host == tr0.host
    ensures Quiet(env, old(c.order), c.order)
    ensures forall x | x in c.known :: x in old(c.known) || fresh(x)
  {
    if e0.rrType != T_A && e0.rrType != T_AAAA {
      return e0, no0, -E_DNS_NO_IP, [], tr0;
    }
    e, tr := e0, tr0;
    no, ret, ip := NextIp(e0, no0);
    if ret < 0 {
      if e0.rrType == T_A && !(flags.ipv6Only || flags.ipv6First || flags.ipv4Only) {
        e, no, ret, ip, tr := FallBack(c, e0, T_AAAA, env, held, tr);
      } else if e0.rrType == T_AAAA && flags.ipv6First && !flags.ipv6Only {
        e, no, ret, ip, tr := FallBack(c, e0, T_A, env, held, tr);
      }
    }
  }

  /** `dns_ip_resolve` */
  method IpResolve(c: Cache, e0: Entry?, no0: nat, name: Name, flags: Flags, env: Env, ghost held: multiset<Entry>,
                   ghost tr0: Trail)
    returns (e: Entry?, no: nat, ret: int, ip: Ip, ghost tr: Trail)
    requires Holding(c, held + RefTo(e0)) && IsShort(e0) && Found(c.nm, tr0, e0)
    modifies c, c.known
    ensures Holding(c, held + RefTo(e)) && IsShort(e) && ret <= 0
    ensures Family(flags, e0) ==> Family(flags, e)
    ensures (e0 == null || IsAddressEntry(e0)) && e != null ==> IsAddressEntry(e)
    ensures Served(e0, no0, e, no, ret, ip) && (ret == 0 && e == null ==> IsLiteral(env, EndName(tr), ip))
    ensures Found(c.nm, tr, e) && tr.host == if e0 == null then name else tr0.host
    ensures Quiet(env, old(c.order), c.order)
    ensures e0 == null && Still(env, old(c.order)) ==> (ret == 0 <==> Resolvable(env, c.nm, old(c.order), name, flags))
    ensures e0 == null ==>
              FirstOf(env, c.nm, old(c.order), name, if flags.ipv6First || flags.ipv6Only then 28 else 1, e, no, ip)
    ensures forall x | x in c.known :: x in old(c.known) || fresh(x)
  {
    if e0 == null {
      e, no, ret, ip, tr := IpResolveFirst(c, no0, name, flags, env, held);
    } else {
      e, no, ret, ip, tr := IpResolveNext(c, e0, no0, flags, env, held, tr0);
    }
  }
}
