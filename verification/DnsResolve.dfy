/**
  Resolving a name for SIP (dns_cache.h and dns_cache.c): a handle holds at most one reference to an SRV
  entry and one to an A or AAAA entry while its addresses are tried one after another.  Whatever is
  resolved, and whatever fails, no reference is lost or left behind, and every call returns.
 */
module DnsResolve {
  import opened CaseHash
  import opened Options
  import opened Sequences
  import opened DnsTable
  import opened DnsCache
  import opened SrvSelect
  import opened SrvLaws
  import opened RecordOrder
  import opened DnsAddress

  // ----- SRV records -----

  /** What is left of an SRV list, with and without load balancing. */
  ghost function Rest(list: seq<Rr>, cur: Cursor, lb: bool): nat {
    if lb then |Unspent(list, cur)| else if cur.no <= |list| then |list| + 1 - cur.no else 0
  }

  ghost function Unspent(list: seq<Rr>, cur: Cursor): set<nat> {
    set k: nat | k < |list| && !IsSpent(cur, k)
  }

  /** The cursor of an SRV entry makes sense to the load balancer, if that is used. */
  ghost predicate Positioned(e: Entry?, cur: Cursor, lb: bool) {
    lb && e != null ==> Placed(e.rrs, cur)
  }

  lemma RestShrinks(list: seq<Rr>, cur: Cursor, v: View, rand: nat -> nat, cur': Cursor, r: Option<nat>)
    requires |list| <= MAX_RECORDS && Placed(list, cur) && IsNext(list, cur, v, rand, cur', r)
    ensures Placed(list, cur')
    ensures r.Some? ==> r.value < |list| && Fresh(list[r.value], v) && IsSpent(cur', r.value) && !IsSpent(cur, r.value)
    ensures r.Some? ==> |Unspent(list, cur')| < |Unspent(list, cur)|
    ensures r.None? ==> forall i | 0 <= i < |list| && !IsSpent(cur, i) :: !Fresh(list[i], v)
  {
    NextSpends(list, cur, v, rand, cur', r);
    forall i | 0 <= i < |list| && !IsSpent(cur, i) && Fresh(list[i], v)
      ensures r.Some?
    {
      assert i in Remaining(list, cur, v);
    }
    if r.Some? {
      var k := r.value;
      assert k in Unspent(list, cur) && k !in Unspent(list, cur') by {
        assert k in Spent(list, cur') && k !in Spent(list, cur);
      }
      forall j | j in Unspent(list, cur')
        ensures j in Unspent(list, cur)
      {
        assert j !in Spent(list, cur');
      }
      Smaller(Unspent(list, cur'), Unspent(list, cur), k);
    }
  }

  lemma Smaller(a: set<nat>, b: set<nat>, k: nat)
    requires a <= b && k in b && k !in a
    ensures |a| < |b|
  {
    assert a <= b - {k};
    SubsetSize(a, b - {k});
  }

  lemma {:induction false} SubsetSize(a: set<nat>, b: set<nat>)
    requires a <= b
    ensures |a| <= |b|
  {
    if x :| x in a {
      SubsetSize(a - {x}, b - {x});
    }
  }

  /** Without a record from number no on, all from there on have expired. */
  lemma FreshIsLeft(list: seq<Rr>, no: nat, v: View)
    ensures From(list, v, no).None? ==> forall i | 0 <= i < |list| && i >= no :: !Fresh(list[i], v)
  {}

  /** One step along a list at a time: to a record, or to the end. */
  ghost predicate IsStep(list: seq<Rr>, lb: bool, rand: nat -> nat, cur: Cursor, v: View, cur': Cursor,
                         r: Option<nat>) {
    if lb then IsNext(list, cur, v, rand, cur', r)
    else cur' == cur.(no := Advanced(list, cur.no)) && r == From(list, v, cur.no)
  }

  /** The next SRV record of a list: drawn by the load balancer, or simply the next one. */
  method NextSrv(list: seq<Rr>, cur0: Cursor, lb: bool, v: View, rand: nat -> nat) returns (cur: Cursor, k: Option<nat>)
    requires |list| <= MAX_RECORDS && Bounded(rand) && (lb ==> Placed(list, cur0))
    ensures lb ==> Placed(list, cur)
    ensures IsStep(list, lb, rand, cur0, v, cur, k)
    ensures k.Some? ==> k.value < |list| && Fresh(list[k.value], v) && Rest(list, cur, lb) < Rest(list, cur0, lb)
    ensures k.Some? && lb ==> IsSpent(cur, k.value) && !IsSpent(cur0, k.value)
    ensures k.None? ==>
              forall i | 0 <= i < |list| && (if lb then !IsSpent(cur0, i) else i >= cur0.no) :: !Fresh(list[i], v)
  {
    if lb {
      cur, k := GetNextRr(list, v, rand, cur0);
      RestShrinks(list, cur0, v, rand, cur, k);
    } else {
      var n, i := EntryGetRr(list, cur0.no, v);
      cur := cur0.(no := (n + 1) % 256);
      FreshIsLeft(list, cur0.no, v);
      k := if i < |list| then Some(i) else None;
    }
  }

  function HostOf(rr: Rr): Name {
    if rr.rdata.Srv? then rr.rdata.host else []
  }

  function PortOf(rr: Rr): int {
    if rr.rdata.Srv? then rr.rdata.port else 0
  }

  /** A step along the records of an entry: from where, at what time, to which record and where to. */
  datatype Take = Take(from: Cursor, v: View, k: nat, to: Cursor)

  /** It takes a record, at a time in the life of the entry at which the record has not expired. */
  ghost predicate IsTake(e: Entry, lb: bool, rand: nat -> nat, t: Take) {
    && t.v.permanent == e.permanent && t.v.now < e.expire && t.k < |e.rrs| && Usable(e.rrs[t.k], t.v)
    && IsStep(e.rrs, lb, rand, t.from, t.v, t.to, Some(t.k))
  }

  /** Or there is none to take at that time. */
  ghost predicate IsEnd(e: Entry, lb: bool, rand: nat -> nat, t: Take) {
    && t.v.permanent == e.permanent && t.v.now < e.expire
    && IsStep(e.rrs, lb, rand, t.from, t.v, t.to, None)
  }

  /** The next record of an entry; t is the step. */
  method TakeSrv(e: Entry, cur0: Cursor, lb: bool, env: Env)
    returns (cur: Cursor, ret: int, host: Name, port: int, ghost t: Take)
    requires IsShort(e) && Positioned(e, cur0, lb) && Bounded(env.rand)
    ensures Positioned(e, cur, lb) && (ret == 0 || ret == -E_DNS_EOR) && t.from == cur0 && t.to == cur
    ensures if ret == 0 then IsTake(e, lb, env.rand, t) else IsEnd(e, lb, env.rand, t)
    ensures ret == 0 ==> IsRecord(e, t.k, host, port) && Rest(e.rrs, cur, lb) < Rest(e.rrs, cur0, lb)
    ensures ret == 0 && lb ==> IsSpent(cur, t.k) && !IsSpent(cur0, t.k)
    ensures e.permanent && e.rrs != [] && AtStart(cur0, lb) ==> ret == 0
  {
    var v := ViewOf(e);
    var r;
    cur, r := NextSrv(e.rrs, cur0, lb, v, env.rand);
    t := Take(cur0, v, if r.Some? then r.value else 0, cur);
    ret, host, port := -E_DNS_EOR, [], 0;
    if r.Some? {
      ret, host, port := 0, HostOf(e.rrs[r.value]), PortOf(e.rrs[r.value]);
    } else if e.rrs != [] && AtStart(cur0, lb) {
      assert !Fresh(e.rrs[0], v);
    }
  }

  /** Host and port of an SRV record. */
  ghost predicate IsRecord(srv: Entry?, k: nat, host: Name, port: int) {
    && srv != null && k < |srv.rrs|
    && match srv.rrs[k].rdata case Srv(_, _, p, h) => host == h && port == p case _ => host == [] && port == 0
  }

  /** The start of a list: without load balancing the bitmap is left alone. */
  function StartFrom(cur: Cursor, lb: bool): Cursor {
    if lb then START else cur.(no := 0)
  }

  predicate AtStart(cur: Cursor, lb: bool) {
    cur.no == 0 && (lb ==> cur.tried == {})
  }

  /** The entry at hand, or a lookup and a position at its start. */
  method SrvEntry(c: Cache, e0: Entry?, cur0: Cursor, lb: bool, name: Name, env: Env, ghost held: multiset<Entry>,
                  ghost tr0: Trail)
    returns (e: Entry?, cur: Cursor, ghost tr: Trail)
    requires Holding(c, held + RefTo(e0)) && IsShort(e0) && Positioned(e0, cur0, lb) && Found(c.nm, tr0, e0)
    modifies c, c.known
    ensures Holding(c, held + RefTo(e)) && IsShort(e) && Positioned(e, cur, lb)
    ensures e0 != null ==> e == e0 && cur == cur0
    ensures e0 == null && e != null ==> e.rrType == T_SRV && HasRecords(e) && cur == StartFrom(cur0, lb)
    ensures e == null ==> cur == cur0
    ensures Found(c.nm, tr, e) && if e0 == null then tr.host == name else tr == tr0
    ensures Quiet(env, old(c.order), c.order)
    ensures e0 == null && Still(env, old(c.order)) ==> e == EntryFor(c.nm, old(c.order), name, T_SRV)
    ensures forall x | x in c.known :: x in old(c.known) || fresh(x)
  {
    e, cur, tr := e0, cur0, tr0;
    if e == null {
      NoRef(held);
      e, tr := GetEntry(c, name, T_SRV, env, held);
      if e != null {
        cur := StartFrom(cur0, lb);
      }
    }
  }

  /** `dns_srv_resolve_nxt`; t is the step along the records of the entry. */
  method SrvResolveNext(c: Cache, e0: Entry?, cur0: Cursor, lb: bool, name: Name, env: Env, ghost held: multiset<Entry>,
                        ghost tr0: Trail)
    returns (e: Entry?, cur: Cursor, ret: int, host: Name, port: int, ghost t: Take, ghost tr: Trail)
    requires Holding(c, held + RefTo(e0)) && IsShort(e0) && Positioned(e0, cur0, lb) && Bounded(env.rand)
    requires Found(c.nm, tr0, e0)
    modifies c, c.known
    ensures Holding(c, held + RefTo(e)) && IsShort(e) && Positioned(e, cur, lb) && ret <= 0
    ensures if e0 != null then e == e0 else e == null || e.rrType == T_SRV
    ensures Found(c.nm, tr, e) && if e0 == null then tr.host == name else tr == tr0
    ensures e == null ==> ret == -E_DNS_NO_SRV && cur == cur0
    ensures e != null ==> t.from == (if e0 != null then cur0 else StartFrom(cur0, lb)) && t.to == cur
    ensures e != null ==>
              if ret == 0 then IsTake(e, lb, env.rand, t) else ret == -E_DNS_EOR && IsEnd(e, lb, env.rand, t)
    ensures ret == 0 ==> IsRecord(e, t.k, host, port)
    ensures ret == 0 && lb ==> IsSpent(cur, t.k) && (e0 != null ==> !IsSpent(cur0, t.k))
    ensures ret == 0 && e0 != null ==> Rest(e.rrs, cur, lb) < Rest(e.rrs, cur0, lb)
    ensures Quiet(env, old(c.order), c.order)
    ensures e0 == null && Still(env, old(c.order)) ==>
              e == EntryFor(c.nm, old(c.order), name, T_SRV) && (e != null ==> ret == 0)
    ensures forall x | x in c.known :: x in old(c.known) || fresh(x)
  {
    ghost var s := c.order;
    var from;
    e, from, tr := SrvEntry(c, e0, cur0, lb, name, env, held, tr0);
    if e == null {
      cur, ret, host, port, t := cur0, -E_DNS_NO_SRV, [], 0, Take(cur0, View(false, false, 0), 0, cur0);
    } else {
      EntryForIsThere(c.nm, s, name, T_SRV);
      cur, ret, host, port, t := TakeSrv(e, from, lb, env);
    }
  }

  // ----- Handles -----

  /** `struct dns_srv_handle`; the functions that get a pointer to one change it and return it. */
  datatype Handle = Handle(srv: Entry?, a: Entry?, cursor: Cursor, ipNo: nat, port: int, proto: int)

  /** `dns_srv_handle_init` */
  const NEW_HANDLE := Handle(null, null, Cursor(0, {}), 0, 0, 0)

  /** The references outside the cache are `others` and those of the handle. */
  ghost predicate Balanced(c: Cache, h: Handle, lb: bool, others: multiset<Entry>)
    reads c, c.live
  {
    && IsShort(h.srv) && IsShort(h.a) && Positioned(h.srv, h.cursor, lb)
    && Holding(c, others + RefTo(h.srv) + RefTo(h.a))
  }

  /** Gives a reference back, if there is one. */
  method PutIfAny(c: Cache, e: Entry?, ghost held: multiset<Entry>)
    requires Holding(c, held + RefTo(e))
    modifies c`held, c`live, c.known
    ensures Holding(c, held)
  {
    if e == null {
      NoRef(held);
    } else {
      PutEntry(c, e, held);
    }
  }

  lemma Swapped(others: multiset<Entry>, e: Entry?, f: Entry?)
    ensures others + RefTo(e) + RefTo(f) == others + RefTo(f) + RefTo(e)
  {}

  /** `dns_srv_handle_put`: none of the handle's references is left. */
  method HandlePut(c: Cache, h: Handle, lb: bool, ghost others: multiset<Entry>) returns (h': Handle)
    requires Balanced(c, h, lb, others)
    modifies c`held, c`live, c.known
    ensures Holding(c, others) && h' == h.(srv := null, a := null)
  {
    Swapped(others, h.srv, h.a);
    PutIfAny(c, h.srv, others + RefTo(h.a));
    PutIfAny(c, h.a, others);
    h' := h.(srv := null, a := null);
  }

  /** `atomic_inc(&e->refcnt)`, if there is an entry. */
  method RefIfAny(c: Cache, e: Entry?, ghost held: multiset<Entry>)
    requires Holding(c, held) && (e != null ==> e in held)
    modifies c`held, c.known
    ensures Holding(c, held + RefTo(e))
  {
    if e == null {
      NoRef(held);
    } else {
      c.AddRef(e);
    }
  }

  /** `dns_srv_handle_cpy`: the copy has references of its own. */
  method HandleCopy(c: Cache, src: Handle, lb: bool, ghost others: multiset<Entry>) returns (dst: Handle)
    requires Balanced(c, src, lb, others)
    modifies c`held, c.known
    ensures dst == src && Balanced(c, dst, lb, others + RefTo(src.srv) + RefTo(src.a))
  {
    RefIfAny(c, src.srv, others + RefTo(src.srv) + RefTo(src.a));
    RefIfAny(c, src.a, others + RefTo(src.srv) + RefTo(src.a) + RefTo(src.srv));
    dst := src;
  }

  /**
    Where the addresses of a handle come from: the trail of its address entry, the SRV record it begins
    at, if it does, and the trail of its SRV entry.
   */
  datatype Origin = Origin(tr: Trail, record: Option<nat>, srvTr: Trail)

  ghost predicate Tied(nm: Naming, h: Handle, o: Origin) {
    && Found(nm, o.tr, h.a) && (h.a != null ==> IsAddressEntry(h.a)) && Found(nm, o.srvTr, h.srv)
    && (h.a != null && o.record.Some? ==> IsRecord(h.srv, o.record.value, o.tr.host, h.port))
  }

  /** The number of the address a call asks for: that of the handle, or 0 with a new entry. */
  function NumberAsked(h0: Handle, h: Handle, takes: seq<Take>): nat {
    if takes == [] then Asked(h0.a, h0.ipNo, h.a) else 0
  }

  /**
    A success of a handle that was at h0: the next address, from the number asked for on, of the entry
    to which the host leads, or the address that the name at the end of the trail spells; and the port
    stored, which is that of the record of this host.
   */
  ghost predicate Delivers(nm: Naming, env: Env, h0: Handle, h: Handle, ret: int, ip: Ip, port: int, o: Origin,
                           takes: seq<Take>) {
    ret == 0 ==>
      && port == h.port && Found(nm, o.tr, h.a)
      && (if h.a == null then IsLiteral(env, EndName(o.tr), ip)
          else Yields(h.a, NumberAsked(h0, h, takes), ip) && h.ipNo == Capped(h.a, NumberAsked(h0, h, takes)))
      && (o.record.Some? ==> IsRecord(h.srv, o.record.value, o.tr.host, port))
  }

  /**
    A handle with addresses left: anything but its next address only if its entry has run dry; if the
    entry does not expire, exactly the address with the number of the handle.
   */
  ghost predicate Continues(h0: Handle, h: Handle, ret: int, ip: Ip, takes: seq<Take>) {
    IsAddressEntry(h0.a) ==>
      && ((ret == 0 && takes == [] && h.a == h0.a) || IsDry(h0.a, h0.ipNo))
      && (h0.a.permanent && h0.ipNo < |h0.a.rrs| ==>
            ret == 0 && takes == [] && h == h0 && IsIpOf(h0.a.rrs[h0.ipNo], ip))
  }

  /** Where a handle takes its next SRV record from. */
  function Begin(h: Handle, lb: bool): Cursor {
    if h.srv != null then h.cursor else StartFrom(h.cursor, lb)
  }

  /** Where these steps lead from a position. */
  function LastTo(cur: Cursor, takes: seq<Take>): Cursor {
    if takes == [] then cur else takes[|takes| - 1].to
  }

  /** Each step begins where the one before has ended, the first at this position. */
  ghost predicate Connected(cur: Cursor, takes: seq<Take>) {
    forall i | 0 <= i < |takes| :: takes[i].from == LastTo(cur, takes[..i])
  }

  /** The records are taken one after another, from this position on. */
  ghost predicate AreTakes(e: Entry, lb: bool, rand: nat -> nat, cur: Cursor, takes: seq<Take>) {
    Connected(cur, takes) && forall t | t in takes :: IsTake(e, lb, rand, t)
  }

  /** The port stored after these records have been taken: that of the last, or what it was. */
  function PortAfter(port: int, srv: Entry?, takes: seq<Take>): int {
    if takes == [] || srv == null || takes[|takes| - 1].k >= |srv.rrs| then port
    else PortOf(srv.rrs[takes[|takes| - 1].k])
  }

  /** A handle at h0 has taken these records of its SRV entry and is now at h. */
  ghost predicate Took(env: Env, lb: bool, h0: Handle, h: Handle, takes: seq<Take>) {
    && (h0.srv != null ==> h.srv == h0.srv)
    && (takes != [] ==> h.srv != null && AreTakes(h.srv, lb, env.rand, Begin(h0, lb), takes))
    && h.port == PortAfter(h0.port, h.srv, takes)
  }

  /** It can go on from there. */
  ghost predicate GoesOn(h0: Handle, h: Handle, takes: seq<Take>) {
    h.cursor == LastTo(h0.cursor, takes) && (takes == [] ==> h.srv == h0.srv)
  }

  /** It cannot: there is no SRV entry, or there is no unexpired record left. */
  ghost predicate RunOut(env: Env, lb: bool, h0: Handle, h: Handle, takes: seq<Take>) {
    h.srv != null ==>
      exists t :: IsEnd(h.srv, lb, env.rand, t) && t.from == LastTo(Begin(h0, lb), takes) && t.to == h.cursor
  }

  lemma ConnectedOn(cur: Cursor, takes1: seq<Take>, takes2: seq<Take>)
    requires Connected(cur, takes1) && Connected(LastTo(cur, takes1), takes2)
    ensures Connected(cur, takes1 + takes2)
  {
    var takes := takes1 + takes2;
    forall i | 0 <= i < |takes|
      ensures takes[i].from == LastTo(cur, takes[..i])
    {
      if i < |takes1| {
        assert takes[..i] == takes1[..i];
      } else {
        var j := i - |takes1|;
        assert takes[..i] == takes1 + takes2[..j] && takes2[j].from == LastTo(LastTo(cur, takes1), takes2[..j]);
      }
    }
  }

  lemma TakesOn(e: Entry, lb: bool, rand: nat -> nat, cur: Cursor, takes1: seq<Take>, takes2: seq<Take>)
    requires AreTakes(e, lb, rand, cur, takes1) && AreTakes(e, lb, rand, LastTo(cur, takes1), takes2)
    ensures AreTakes(e, lb, rand, cur, takes1 + takes2)
  {
    ConnectedOn(cur, takes1, takes2);
  }

  lemma LastOn(cur: Cursor, takes1: seq<Take>, takes2: seq<Take>)
    ensures LastTo(cur, takes1 + takes2) == LastTo(LastTo(cur, takes1), takes2)
  {}

  lemma TookOn(env: Env, lb: bool, h0: Handle, h1: Handle, h: Handle, takes1: seq<Take>, takes2: seq<Take>)
    requires Took(env, lb, h0, h1, takes1) && GoesOn(h0, h1, takes1) && Took(env, lb, h1, h, takes2)
    ensures Took(env, lb, h0, h, takes1 + takes2)
    ensures GoesOn(h1, h, takes2) ==> GoesOn(h0, h, takes1 + takes2)
    ensures RunOut(env, lb, h1, h, takes2) ==> RunOut(env, lb, h0, h, takes1 + takes2)
  {
    assert Begin(h1, lb) == LastTo(Begin(h0, lb), takes1);
    LastOn(Begin(h0, lb), takes1, takes2);
    LastOn(h0.cursor, takes1, takes2);
    if takes1 == [] {
      assert takes1 + takes2 == takes2;
    } else if takes2 == [] {
      assert takes1 + takes2 == takes1;
    } else {
      TakesOn(h.srv, lb, env.rand, Begin(h0, lb), takes1, takes2);
      assert (takes1 + takes2)[|takes1 + takes2| - 1] == takes2[|takes2| - 1] && takes2[|takes2| - 1] in takes2;
    }
  }

  /**
    An answer for a handle that was at h0, after it has taken these records: from the last of them,
    or from where the handle was; a failure leaves no address entry.
   */
  ghost predicate Answered(nm: Naming, env: Env, lb: bool, h0: Handle, o0: Origin, end: TurnEnd, o: Origin,
                           takes: seq<Take>) {
    && Tied(nm, end.h, o) && Delivers(nm, env, h0, end.h, end.ret, end.ip, end.port, o, takes)
    && Continues(h0, end.h, end.ret, end.ip, takes)
    && end.ret <= 0 && (end.ret < 0 ==> end.h.a == null) && (end.again ==> end.ret < 0)
    && Took(env, lb, h0, end.h, takes)
    && (if end.ret == 0 || end.again then GoesOn(h0, end.h, takes) else RunOut(env, lb, h0, end.h, takes))
    && (end.ret == 0 ==> o.record == if takes != [] then Some(takes[|takes| - 1].k) else o0.record)
    && (end.ret == 0 && takes == [] ==> h0.a != null && o.tr.host == o0.tr.host)
  }

  /** What a turn has left: an answer, or nothing and perhaps another turn to do. */
  datatype TurnEnd = TurnEnd(h: Handle, again: bool, ret: int, ip: Ip, port: int)

  /** An answer after a turn that has found no address. */
  lemma AnsweredOn(nm: Naming, env: Env, lb: bool, h0: Handle, o0: Origin, end1: TurnEnd, o1: Origin, takes1: seq<Take>,
                   end: TurnEnd, o: Origin, takes2: seq<Take>)
    requires Answered(nm, env, lb, h0, o0, end1, o1, takes1) && end1.again
    requires Answered(nm, env, lb, end1.h, o1, end, o, takes2)
    ensures Answered(nm, env, lb, h0, o0, end, o, takes1 + takes2)
  {
    TookOn(env, lb, h0, end1.h, end.h, takes1, takes2);
  }

  // ----- Records that do not expire -----

  ghost predicate AllFresh(list: seq<Rr>, v: View) {
    forall k | 0 <= k < |list| :: Fresh(list[k], v)
  }

  lemma PlainStep(list: seq<Rr>, rand: nat -> nat, cur: Cursor, v: View, cur': Cursor, r: Option<nat>)
    requires |list| <= MAX_RECORDS && AllFresh(list, v) && IsStep(list, false, rand, cur, v, cur', r)
    ensures if cur.no < |list| then r == Some(cur.no) && cur'.no == cur.no + 1 else r == None
  {}

  /** Without load balancing they are taken in the order of the list. */
  lemma {:induction false} PlainTake(e: Entry, rand: nat -> nat, cur: Cursor, takes: seq<Take>, i: nat)
    requires e.permanent && IsShort(e) && cur.no == 0 && AreTakes(e, false, rand, cur, takes) && i < |takes|
    ensures takes[i].k == i < |e.rrs| && takes[i].to.no == i + 1
  {
    if i > 0 {
      PlainTake(e, rand, cur, takes, i - 1);
    }
    var t := takes[i];
    assert t in takes && t.from == LastTo(cur, takes[..i]);
    PlainStep(e.rrs, rand, t.from, t.v, t.to, Some(t.k));
  }

  ghost predicate IsTaken(takes: seq<Take>, k: nat) {
    exists t :: t in takes && t.k == k
  }

  lemma PlainTakesAll(e: Entry, rand: nat -> nat, cur: Cursor, takes: seq<Take>, end: Take)
    requires e.permanent && IsShort(e) && cur.no == 0 && AreTakes(e, false, rand, cur, takes)
    requires IsEnd(e, false, rand, end) && end.from == LastTo(cur, takes)
    ensures |takes| == |e.rrs| && forall k | 0 <= k < |e.rrs| :: takes[k].k == k
  {
    forall k | 0 <= k < |takes|
      ensures takes[k].k == k < |e.rrs| && takes[k].to.no == k + 1
    {
      PlainTake(e, rand, cur, takes, k);
    }
    PlainStep(e.rrs, rand, end.from, end.v, end.to, None);
  }

  /** A record spent by the load balancer is one that was spent before or the one returned. */
  lemma DrawnStep(list: seq<Rr>, rand: nat -> nat, cur: Cursor, v: View, cur': Cursor, r: Option<nat>, k: nat)
    requires |list| <= MAX_RECORDS && Placed(list, cur) && AllFresh(list, v) && IsNext(list, cur, v, rand, cur', r)
    requires k < |list| && !IsSpent(cur, k)
    ensures r.Some? && Placed(list, cur') && (r == Some(k) || !IsSpent(cur', k))
  {
    NextSpends(list, cur, v, rand, cur', r);
    assert k in Remaining(list, cur, v);
    if r != Some(k) {
      assert k in Remaining(list, cur', v) && k !in Spent(list, cur');
    }
  }

  lemma {:induction false} DrawnTake(e: Entry, rand: nat -> nat, takes: seq<Take>, n: nat, k: nat)
    requires e.permanent && IsShort(e) && AreTakes(e, true, rand, START, takes) && n <= |takes| && k < |e.rrs|
    ensures Placed(e.rrs, LastTo(START, takes[..n])) && (IsTaken(takes, k) || !IsSpent(LastTo(START, takes[..n]), k))
  {
    if n > 0 {
      DrawnTake(e, rand, takes, n - 1, k);
      var t := takes[n - 1];
      assert t in takes && t.from == LastTo(START, takes[..n - 1]);
      NextSpends(e.rrs, t.from, t.v, rand, t.to, Some(t.k));
      if !IsTaken(takes, k) {
        DrawnStep(e.rrs, rand, t.from, t.v, t.to, Some(t.k), k);
      }
    }
  }

  /** Either way all have been taken when there is none left. */
  lemma TakesAll(e: Entry, lb: bool, rand: nat -> nat, cur: Cursor, takes: seq<Take>, end: Take, k: nat)
    requires e.permanent && IsShort(e) && AreTakes(e, lb, rand, StartFrom(cur, lb), takes)
    requires IsEnd(e, lb, rand, end) && end.from == LastTo(StartFrom(cur, lb), takes) && k < |e.rrs|
    ensures IsTaken(takes, k)
  {
    if lb {
      DrawnTake(e, rand, takes, |takes|, k);
      assert takes[..|takes|] == takes;
      if !IsTaken(takes, k) {
        DrawnStep(e.rrs, rand, end.from, end.v, end.to, None, k);
      }
    } else {
      PlainTakesAll(e, rand, StartFrom(cur, lb), takes, end);
      assert takes[k] in takes;
    }
  }

  // ----- Turns -----

  /** All hosts of the records are without an address. */
  ghost predicate Hopeless(env: Env, nm: Naming, s: seq<Entry>, e: Entry, flags: Flags) {
    forall k | 0 <= k < |e.rrs| :: !Resolvable(env, nm, s, HostOf(e.rrs[k]), flags)
  }

  /** None of the hosts of these records has an address. */
  ghost predicate AllInVain(env: Env, nm: Naming, s: seq<Entry>, srv: Entry?, flags: Flags, takes: seq<Take>) {
    srv != null ==>
      forall t | t in takes && t.k < |srv.rrs| :: !Resolvable(env, nm, s, HostOf(srv.rrs[t.k]), flags)
  }

  /** In a table that stays as it is: which SRV entry is used, and what its records come to. */
  ghost predicate Foreseen(env: Env, nm: Naming, s: seq<Entry>, name: Name, flags: Flags, h0: Handle, h: Handle,
                           ret: int, takes: seq<Take>) {
    Still(env, s) && h0.a == null ==>
      && (h0.srv == null ==> h.srv == EntryFor(nm, s, name, T_SRV) && (h.srv != null ==> takes != []))
      && (h.srv == null || Hopeless(env, nm, s, h.srv, flags) ==> ret < 0)
      && (ret < 0 ==> AllInVain(env, nm, s, h.srv, flags, takes))
  }

  /** A new SRV entry is one of the name; an old one stays where it came from. */
  ghost predicate IsSrvOf(name: Name, h0: Handle, o0: Origin, h: Handle, o: Origin) {
    if h0.srv != null then o.srvTr == o0.srvTr else h.srv != null ==> o.srvTr.host == name
  }

  /** A handle at h0 has taken a record and is at h. */
  ghost predicate HostTaken(env: Env, lb: bool, h0: Handle, h: Handle, host: Name, t: Take) {
    && h.srv != null && (h0.srv != null ==> h.srv == h0.srv) && IsTake(h.srv, lb, env.rand, t)
    && t.from == Begin(h0, lb) && t.to == h.cursor && IsRecord(h.srv, t.k, host, h.port)
  }

  /** There was none to take. */
  ghost predicate NoneTaken(env: Env, lb: bool, h0: Handle, h: Handle, t: Take) {
    && (h0.srv != null ==> h.srv == h0.srv) && h.port == h0.port
    && (h.srv != null ==> IsEnd(h.srv, lb, env.rand, t) && t.from == Begin(h0, lb) && t.to == h.cursor)
  }

  /** The SRV half of a turn: the next record. */
  method NextHost(c: Cache, h: Handle, name: Name, lb: bool, env: Env, ghost others: multiset<Entry>, ghost tr0: Trail)
    returns (h': Handle, ret: int, host: Name, ghost t: Take, ghost tr: Trail)
    requires Balanced(c, h, lb, others) && h.a == null && Bounded(env.rand) && Found(c.nm, tr0, h.srv)
    modifies c, c.known
    ensures Balanced(c, h', lb, others) && h'.a == null && ret <= 0
    ensures ret == 0 && h.srv != null ==> Rest(h.srv.rrs, h'.cursor, lb) < Rest(h.srv.rrs, h.cursor, lb)
    ensures if ret == 0 then HostTaken(env, lb, h, h', host, t) else NoneTaken(env, lb, h, h', t)
    ensures Quiet(env, old(c.order), c.order)
    ensures Found(c.nm, tr, h'.srv) && if h.srv == null then tr.host == name else tr == tr0
    ensures h.srv == null && Still(env, old(c.order)) ==>
              h'.srv == EntryFor(c.nm, old(c.order), name, T_SRV) && (h'.srv != null ==> ret == 0)
    ensures forall x | x in c.known :: x in old(c.known) || fresh(x)
  {
    NoRef(others + RefTo(h.srv));
    var e, cur, port;
    e, cur, ret, host, port, t, tr := SrvResolveNext(c, h.srv, h.cursor, lb, name, env, others, tr0);
    h' := h.(srv := e, cursor := cur, port := if ret == 0 then port else h.port);
    NoRef(others + RefTo(e));
  }

  /** The address half of a turn: an address, or the handle is ready for the next SRV record. */
  method NextAddr(c: Cache, h: Handle, host: Name, flags: Flags, env: Env, ghost others: multiset<Entry>,
                  ghost tr0: Trail)
    returns (h': Handle, ret: int, ip: Ip, ghost tr: Trail)
    requires Balanced(c, h, flags.srvLb, others) && Found(c.nm, tr0, h.a) && (h.a != null ==> IsAddressEntry(h.a))
    modifies c, c.known
    ensures Balanced(c, h', flags.srvLb, others) && ret <= 0 && (ret < 0 ==> h'.a == null)
    ensures Served(h.a, h.ipNo, h'.a, h'.ipNo, ret, ip) && (h'.a != null ==> IsAddressEntry(h'.a))
    ensures ret == 0 && h'.a == null ==> IsLiteral(env, EndName(tr), ip)
    ensures h' == h.(a := h'.a, ipNo := h'.ipNo)
    ensures Found(c.nm, tr, h'.a) && tr.host == if h.a == null then host else tr0.host
    ensures Quiet(env, old(c.order), c.order)
    ensures h.a == null && Still(env, old(c.order)) ==> (ret == 0 <==> Resolvable(env, c.nm, old(c.order), host, flags))
    ensures forall x | x in c.known :: x in old(c.known) || fresh(x)
  {
    var e, no;
    e, no, ret, ip, tr := IpResolve(c, h.a, h.ipNo, host, flags, env, others + RefTo(h.srv), tr0);
    if ret < 0 {
      PutIfAny(c, e, others + RefTo(h.srv));
      NoRef(others + RefTo(h.srv));
      e := null;
    }
    h' := h.(a := e, ipNo := no);
  }

  /** What is left for `dns_srv_resolve_ip` to try: the lookup, the records of the entry, the addresses of one. */
  ghost function Ahead(h: Handle, lb: bool): (nat, nat, nat) {
    if h.srv == null then (1, 0, if h.a == null then 0 else 1)
    else (0, Rest(h.srv.rrs, h.cursor, lb), if h.a == null then 0 else 1)
  }

  ghost predicate Less(p: (nat, nat, nat), q: (nat, nat, nat)) {
    p.0 < q.0 || (p.0 == q.0 && (p.1 < q.1 || (p.1 == q.1 && p.2 < q.2)))
  }

  /** A turn without a record. */
  lemma NoRecordTurn(nm: Naming, env: Env, lb: bool, h0: Handle, o0: Origin, h: Handle, ret: int, t: Take, srvTr: Trail)
    requires h0.a == null && h.a == null && ret < 0 && NoneTaken(env, lb, h0, h, t) && Found(nm, srvTr, h.srv)
    ensures Answered(nm, env, lb, h0, o0, TurnEnd(h, false, ret, [], 0), o0.(srvTr := srvTr), [])
  {}

  /** A turn with a record. */
  lemma RecordTurn(nm: Naming, env: Env, lb: bool, h0: Handle, o0: Origin, h: Handle, ret: int, ip: Ip, tr: Trail,
                   t: Take, srvTr: Trail)
    requires HostTaken(env, lb, h0, h, tr.host, t) && Found(nm, tr, h.a) && ret <= 0 && (ret < 0 ==> h.a == null)
    requires h0.a == null && (h.a != null ==> IsAddressEntry(h.a)) && Found(nm, srvTr, h.srv)
    requires ret == 0 ==> if h.a == null then IsLiteral(env, EndName(tr), ip) else Yields(h.a, 0, ip) && h.ipNo == 0
    ensures Answered(nm, env, lb, h0, o0, TurnEnd(h, ret < 0, ret, ip, h.port), Origin(tr, Some(t.k), srvTr), [t])
  {}

  lemma RecordForeseen(env: Env, nm: Naming, s: seq<Entry>, s1: seq<Entry>, name: Name, flags: Flags, h0: Handle,
                       h: Handle, ret: int, host: Name, t: Take)
    requires Quiet(env, s, s1) && IsRecord(h.srv, t.k, host, h.port) && ret <= 0
    requires h0.srv == null && Still(env, s) ==> h.srv == EntryFor(nm, s, name, T_SRV)
    requires Still(env, s1) ==> (ret == 0 <==> Resolvable(env, nm, s1, host, flags))
    ensures Foreseen(env, nm, s, name, flags, h0, h, ret, [t])
  {}

  /** The rest of a turn once h0 has taken a record; s is the table before that. */
  method TurnWithRecord(c: Cache, h1: Handle, host: Name, flags: Flags, env: Env, ghost others: multiset<Entry>,
                        ghost t: Take, ghost name: Name, ghost h0: Handle, ghost o0: Origin, ghost s: seq<Entry>,
                        ghost srvTr: Trail)
    returns (end: TurnEnd, ghost o: Origin, ghost takes: seq<Take>)
    requires Balanced(c, h1, flags.srvLb, others)
    requires h0.a == h1.a == null && HostTaken(env, flags.srvLb, h0, h1, host, t)
    requires Quiet(env, s, c.order) && Found(c.nm, srvTr, h1.srv)
    requires h0.srv == null && Still(env, s) ==> h1.srv == EntryFor(c.nm, s, name, T_SRV)
    modifies c, c.known
    ensures Balanced(c, end.h, flags.srvLb, others) && Answered(c.nm, env, flags.srvLb, h0, o0, end, o, takes)
    ensures end.h.srv == h1.srv && end.h.cursor == h1.cursor && o.srvTr == srvTr
    ensures Quiet(env, s, c.order) && Foreseen(env, c.nm, s, name, flags, h0, end.h, end.ret, takes)
    ensures forall x | x in c.known :: x in old(c.known) || fresh(x)
  {
    var h, ret, ip;
    ghost var tr;
    h, ret, ip, tr := NextAddr(c, h1, host, flags, env, others, Trail(host, []));
    RecordTurn(c.nm, env, flags.srvLb, h0, o0, h, ret, ip, tr, t, srvTr);
    RecordForeseen(env, c.nm, s, old(c.order), name, flags, h0, h, ret, host, t);
    end, o, takes := TurnEnd(h, ret < 0, ret, ip, h.port), Origin(tr, Some(t.k), srvTr), [t];
  }

  /** A turn that begins with a new SRV record. */
  method TurnAtRecord(c: Cache, h0: Handle, name: Name, flags: Flags, env: Env, ghost others: multiset<Entry>,
                      ghost o0: Origin)
    returns (end: TurnEnd, ghost o: Origin, ghost takes: seq<Take>)
    requires Balanced(c, h0, flags.srvLb, others) && h0.a == null && Bounded(env.rand) && Tied(c.nm, h0, o0)
    modifies c, c.known
    ensures Balanced(c, end.h, flags.srvLb, others) && Answered(c.nm, env, flags.srvLb, h0, o0, end, o, takes)
    ensures end.again ==> Less(Ahead(end.h, flags.srvLb), Ahead(h0, flags.srvLb))
    ensures Quiet(env, old(c.order), c.order)
    ensures IsSrvOf(name, h0, o0, end.h, o)
    ensures Foreseen(env, c.nm, old(c.order), name, flags, h0, end.h, end.ret, takes)
    ensures forall x | x in c.known :: x in old(c.known) || fresh(x)
  {
    var h1, ret, host;
    ghost var t, srvTr;
    h1, ret, host, t, srvTr := NextHost(c, h0, name, flags.srvLb, env, others, o0.srvTr);
    if ret < 0 {
      NoRecordTurn(c.nm, env, flags.srvLb, h0, o0, h1, ret, t, srvTr);
      end, o, takes := TurnEnd(h1, false, ret, [], 0), o0.(srvTr := srvTr), [];
    } else {
      end, o, takes := TurnWithRecord(c, h1, host, flags, env, others, t, name, h0, o0, old(c.order), srvTr);
    }
  }

  /** One turn of the loop of `dns_srv_resolve_ip`; it goes on only with less to try. */
  method ResolveTurn(c: Cache, h0: Handle, name: Name, flags: Flags, env: Env, ghost others: multiset<Entry>,
                     ghost o0: Origin)
    returns (end: TurnEnd, ghost o: Origin, ghost takes: seq<Take>)
    requires Balanced(c, h0, flags.srvLb, others) && Bounded(env.rand) && Tied(c.nm, h0, o0)
    modifies c, c.known
    ensures Balanced(c, end.h, flags.srvLb, others) && Answered(c.nm, env, flags.srvLb, h0, o0, end, o, takes)
    ensures end.again ==> Less(Ahead(end.h, flags.srvLb), Ahead(h0, flags.srvLb))
    ensures Quiet(env, old(c.order), c.order)
    ensures IsSrvOf(name, h0, o0, end.h, o)
    ensures Foreseen(env, c.nm, old(c.order), name, flags, h0, end.h, end.ret, takes)
    ensures forall x | x in c.known :: x in old(c.known) || fresh(x)
  {
    if h0.a == null {
      end, o, takes := TurnAtRecord(c, h0, name, flags, env, others, o0);
    } else {
      var h, ret, ip;
      ghost var tr;
      h, ret, ip, tr := NextAddr(c, h0, [], flags, env, others, o0.tr);
      end, o, takes := TurnEnd(h, ret < 0, ret, ip, h0.port), o0.(tr := tr), [];
    }
  }

  lemma ForeseenOn(nm: Naming, env: Env, name: Name, flags: Flags, s: seq<Entry>, s1: seq<Entry>, h0: Handle,
                   end1: TurnEnd, takes1: seq<Take>, end: TurnEnd, takes2: seq<Take>)
    requires Quiet(env, s, s1) && end1.again && end1.h.a == null && (end1.h.srv != null ==> end.h.srv == end1.h.srv)
    requires Foreseen(env, nm, s, name, flags, h0, end1.h, end1.ret, takes1)
    requires Foreseen(env, nm, s1, name, flags, end1.h, end.h, end.ret, takes2)
    requires (h0.srv != null ==> end1.h.srv == h0.srv) && (takes1 != [] ==> end1.h.srv != null) && end1.ret < 0
    ensures Foreseen(env, nm, s, name, flags, h0, end.h, end.ret, takes1 + takes2)
  {}

  /** A turn after one that has found no address; s is the table, and h0 the handle, before all of them. */
  method FurtherTurn(c: Cache, end1: TurnEnd, name: Name, flags: Flags, env: Env, ghost others: multiset<Entry>,
                     ghost o1: Origin, ghost takes1: seq<Take>, ghost h0: Handle, ghost o0: Origin, ghost s: seq<Entry>)
    returns (end: TurnEnd, ghost o: Origin, ghost takes: seq<Take>)
    requires Balanced(c, end1.h, flags.srvLb, others) && Bounded(env.rand) && end1.again
    requires Answered(c.nm, env, flags.srvLb, h0, o0, end1, o1, takes1) && Quiet(env, s, c.order)
    requires Foreseen(env, c.nm, s, name, flags, h0, end1.h, end1.ret, takes1) && IsSrvOf(name, h0, o0, end1.h, o1)
    modifies c, c.known
    ensures Balanced(c, end.h, flags.srvLb, others) && Answered(c.nm, env, flags.srvLb, h0, o0, end, o, takes)
    ensures end.again ==> Less(Ahead(end.h, flags.srvLb), Ahead(end1.h, flags.srvLb))
    ensures Quiet(env, s, c.order) && Foreseen(env, c.nm, s, name, flags, h0, end.h, end.ret, takes)
    ensures IsSrvOf(name, h0, o0, end.h, o)
    ensures forall x | x in c.known :: x in old(c.known) || fresh(x)
  {
    ghost var takes2;
    end, o, takes2 := ResolveTurn(c, end1.h, name, flags, env, others, o1);
    takes := takes1 + takes2;
    AnsweredOn(c.nm, env, flags.srvLb, h0, o0, end1, o1, takes1, end, o, takes2);
    ForeseenOn(c.nm, env, name, flags, s, old(c.order), h0, end1, takes1, end, takes2);
  }

  /** The loop of `dns_srv_resolve_ip` after its first turn. */
  method FurtherTurns(c: Cache, end1: TurnEnd, name: Name, flags: Flags, env: Env, ghost others: multiset<Entry>,
                      ghost o1: Origin, ghost takes1: seq<Take>, ghost h0: Handle, ghost o0: Origin,
                      ghost s: seq<Entry>)
    returns (end: TurnEnd, ghost o: Origin, ghost takes: seq<Take>)
    requires Balanced(c, end1.h, flags.srvLb, others) && Bounded(env.rand)
    requires Answered(c.nm, env, flags.srvLb, h0, o0, end1, o1, takes1) && Quiet(env, s, c.order)
    requires Foreseen(env, c.nm, s, name, flags, h0, end1.h, end1.ret, takes1) && IsSrvOf(name, h0, o0, end1.h, o1)
    modifies c, c.known
    ensures Balanced(c, end.h, flags.srvLb, others) && Answered(c.nm, env, flags.srvLb, h0, o0, end, o, takes)
            && !end.again
    ensures Quiet(env, s, c.order) && Foreseen(env, c.nm, s, name, flags, h0, end.h, end.ret, takes)
    ensures IsSrvOf(name, h0, o0, end.h, o)
    ensures forall x | x in c.known :: x in old(c.known) || fresh(x)
  {
    end, o, takes := end1, o1, takes1;
    while end.again
      invariant Balanced(c, end.h, flags.srvLb, others) && Answered(c.nm, env, flags.srvLb, h0, o0, end, o, takes)
      invariant Quiet(env, s, c.order) && Foreseen(env, c.nm, s, name, flags, h0, end.h, end.ret, takes)
      invariant IsSrvOf(name, h0, o0, end.h, o)
      invariant forall x | x in c.known :: x in old(c.known) || fresh(x)
      decreases end.again, Ahead(end.h, flags.srvLb).0, Ahead(end.h, flags.srvLb).1, Ahead(end.h, flags.srvLb).2
    {
      end, o, takes := FurtherTurn(c, end, name, flags, env, others, o, takes, h0, o0, s);
    }
  }

  /** `dns_srv_resolve_ip`; the records are taken in this order. */
  method SrvResolveIp(c: Cache, h0: Handle, name: Name, flags: Flags, env: Env, ghost others: multiset<Entry>,
                      ghost o0: Origin)
    returns (h: Handle, ret: int, ip: Ip, port: int, ghost o: Origin, ghost takes: seq<Take>)
    requires Balanced(c, h0, flags.srvLb, others) && Bounded(env.rand) && Tied(c.nm, h0, o0)
    modifies c, c.known
    ensures Balanced(c, h, flags.srvLb, others)
    ensures Answered(c.nm, env, flags.srvLb, h0, o0, TurnEnd(h, false, ret, ip, port), o, takes)
    ensures Quiet(env, old(c.order), c.order)
    ensures Foreseen(env, c.nm, old(c.order), name, flags, h0, h, ret, takes) && IsSrvOf(name, h0, o0, h, o)
    ensures forall x | x in c.known :: x in old(c.known) || fresh(x)
  {
    var end;
    end, o, takes := ResolveTurn(c, h0, name, flags, env, others, o0);
    end, o, takes := FurtherTurns(c, end, name, flags, env, others, o, takes, h0, o0, old(c.order));
    h, ret, ip, port := end.h, end.ret, end.ip, end.port;
    assert TurnEnd(h, false, ret, ip, port) == end;
  }

  /** The port given, or that of the protocol. */
  function InitialPort(port: int, proto: int): int {
    if port != 0 then port else if proto == PROTO_TLS then SIPS_PORT else SIP_PORT
  }

  /** A handle that holds no entry yet. */
  predicate IsFirst(h: Handle) {
    h.srv == null && h.a == null
  }

  /** A first call stores the initial port before anything else. */
  function Entered(h: Handle, port: int, proto: int): Handle {
    if IsFirst(h) then h.(port := InitialPort(port, proto)) else h
  }

  predicate TooLongForSrv(name: Name) {
    |name| + SRV_MAX_PREFIX_LEN + 1 > MAX_DNS_NAME
  }

  /** The name of the SRV entry, if one is looked up. */
  function SrvName(env: Env, name: Name, port: int, proto: int): Option<Name> {
    if port != 0 || TooLongForSrv(name) || env.str2ip(name).Some? || env.str2ip6(name).Some? then None
    else
      var prefix := env.srvPrefix(if proto == 0 then PROTO_UDP else proto);
      if prefix.None? then None else Some(prefix.value + name)
  }

  /**
    A first call that looks up no SRV records: the addresses of the name are next, or the name is
    one, or there is an error.
   */
  method WithoutSrv(h: Handle, name: Name, portIn: int, proto: int, flags: Flags, env: Env, ghost nm: Naming)
    returns (done: bool, ret: int, ip: Ip, port: int, ghost o: Origin)
    requires h.a == null && SrvName(env, name, portIn, proto).None?
    ensures ret <= 0 && o == Origin(Trail(name, []), None, Trail([], []))
    ensures done <==> portIn == 0 && !TooLongForSrv(name)
    ensures done ==> Delivers(nm, env, h, h, ret, ip, port, o, [])
  {
    o := Origin(Trail(name, []), None, Trail([], []));
    if portIn != 0 || TooLongForSrv(name) {
      return false, 0, [], portIn, o;
    }
    var ip4, ip6 := env.str2ip(name), env.str2ip6(name);
    if ip4.Some? || ip6.Some? {
      var mismatch := (flags.ipv4Only && ip4.None?) || (flags.ipv6Only && ip4.Some?);
      ret := if mismatch then -E_DNS_AF_MISMATCH else 0;
      return true, ret, if ip4.Some? then ip4.value else ip6.value, h.port, o;
    }
    return true, -E_DNS_CRITICAL, [], portIn, o;
  }

  /** The entry whose SRV records a first call uses, in a table that stays as it is. */
  function SrvFor(env: Env, nm: Naming, s: seq<Entry>, name: Name, port: int, proto: int): Entry? {
    var srv := SrvName(env, name, port, proto);
    if srv.None? then null else EntryFor(nm, s, srv.value, T_SRV)
  }

  /**
    In such a table records are taken exactly if there is an entry, and it gives no address exactly
    if it is hopeless.
   */
  ghost predicate FirstForeseen(env: Env, nm: Naming, s: seq<Entry>, name: Name, port: int, proto: int, flags: Flags,
                                h: Handle, done: bool, takes: seq<Take>) {
    var e := SrvFor(env, nm, s, name, port, proto);
    Still(env, s) ==>
      && (takes != [] <==> e != null) && (e == null && SrvName(env, name, port, proto).Some? ==> !done)
      && (e != null ==> h.srv == e && (!done <==> Hopeless(env, nm, s, e, flags)))
      && (e != null && !done && !flags.srvLb ==> takes[|takes| - 1].k == |e.rrs| - 1)
  }

  lemma SrvRunsOut(env: Env, nm: Naming, s: seq<Entry>, srv: Name, flags: Flags, h0: Handle, h: Handle, ret: int,
                   takes: seq<Take>)
    requires IsFirst(h0) && Took(env, flags.srvLb, h0, h, takes) && IsShort(h.srv) && ret <= 0
    requires ret < 0 ==> RunOut(env, flags.srvLb, h0, h, takes)
    requires Foreseen(env, nm, s, srv, flags, h0, h, ret, takes) && Still(env, s) && h.srv != null
    ensures takes != [] && h.srv == EntryFor(nm, s, srv, T_SRV) && (ret < 0 <==> Hopeless(env, nm, s, h.srv, flags))
    ensures ret < 0 && !flags.srvLb ==> takes[|takes| - 1].k == |h.srv.rrs| - 1
  {
    EntryForIsThere(nm, s, srv, T_SRV);
    if ret < 0 {
      var end :| IsEnd(h.srv, flags.srvLb, env.rand, end) && end.from == LastTo(Begin(h0, flags.srvLb), takes);
      forall k | 0 <= k < |h.srv.rrs|
        ensures !Resolvable(env, nm, s, HostOf(h.srv.rrs[k]), flags)
      {
        TakesAll(h.srv, flags.srvLb, env.rand, h0.cursor, takes, end, k);
      }
      if !flags.srvLb {
        PlainTakesAll(h.srv, env.rand, StartFrom(h0.cursor, false), takes, end);
      }
    }
  }

  /** The SRV entry of a first call is one of the name behind the prefix of the protocol, UDP if none is given. */
  ghost predicate IsSrvEntryOf(env: Env, name: Name, proto: int, o: Origin) {
    var prefix := env.srvPrefix(if proto == 0 then 1 else proto);
    prefix.Some? && o.srvTr.host == prefix.value + name
  }

  /** No port is given, the name is short enough for a prefix, and it is no address. */
  ghost predicate IsForSrv(env: Env, name: Name, port: int) {
    port == 0 && |name| + 12 <= 256 && env.str2ip(name) == None && env.str2ip6(name) == None
  }

  /** The first call of `dns_srv_sip_resolve`, up to the end of the SRV records. */
  method SipResolveFirst(c: Cache, h0: Handle, name: Name, portIn: int, protoIn: int, flags: Flags, env: Env,
                         ghost others: multiset<Entry>)
    returns (h: Handle, done: bool, ret: int, ip: Ip, port: int, ghost o: Origin, ghost takes: seq<Take>)
    requires Balanced(c, h0, flags.srvLb, others) && IsFirst(h0) && Bounded(env.rand)
    modifies c, c.known
    ensures Balanced(c, h, flags.srvLb, others) && ret <= 0 && Tied(c.nm, h, o)
    ensures Took(env, flags.srvLb, Entered(h0, portIn, protoIn), h, takes)
    ensures if done then Delivers(c.nm, env, h0, h, ret, ip, port, o, takes) else h.a == null
    ensures done && ret == 0 && takes != [] ==> o.record == Some(takes[|takes| - 1].k)
    ensures done && ret == 0 && takes == [] ==> o == Origin(Trail(name, []), None, Trail([], []))
    ensures Quiet(env, old(c.order), c.order)
    ensures SrvName(env, name, portIn, protoIn).None? ==> takes == []
    ensures (done && takes != [] ==> ret == 0 && o.record.Some?) && (portIn != 0 ==> !done)
    ensures FirstForeseen(env, c.nm, old(c.order), name, portIn, protoIn, flags, h, done, takes)
    ensures h.srv != null ==> IsSrvEntryOf(env, name, protoIn, o)
    ensures takes != [] ==> IsForSrv(env, name, portIn)
    ensures forall x | x in c.known :: x in old(c.known) || fresh(x)
  {
    h := h0.(port := InitialPort(portIn, protoIn), proto := if protoIn == 0 then PROTO_UDP else protoIn);
    var srv := SrvName(env, name, portIn, protoIn);
    if srv.None? {
      takes := [];
      done, ret, ip, port, o := WithoutSrv(h, name, portIn, protoIn, flags, env, c.nm);
    } else {
      ghost var h1 := h;
      o := Origin(Trail(name, []), None, Trail([], []));
      h, ret, ip, port, o, takes := SrvResolveIp(c, h, srv.value, flags, env, others, o);
      done := ret >= 0;
      if Still(env, old(c.order)) && h.srv != null {
        SrvRunsOut(env, c.nm, old(c.order), srv.value, flags, h1, h, ret, takes);
      }
    }
  }

  /**
    Where an answer of `dns_srv_sip_resolve` comes from: the last SRV record taken, the name itself,
    or what the handle was at.
   */
  ghost predicate Sourced(name: Name, h0: Handle, o0: Origin, o: Origin, takes: seq<Take>) {
    || (takes != [] && o.record == Some(takes[|takes| - 1].k))
    || (IsFirst(h0) && o.record.None? && o.tr.host == name)
    || (takes == [] && h0.a != null && o.record == o0.record && o.tr.host == o0.tr.host)
  }

  /** The port of the last record taken is this one. */
  ghost predicate LastPortIs(srv: Entry?, takes: seq<Take>, port: int) {
    takes != [] && srv != null && takes[|takes| - 1].k < |srv.rrs| && PortOf(srv.rrs[takes[|takes| - 1].k]) == port
  }

  lemma PortIsLast(env: Env, lb: bool, h0: Handle, h: Handle, takes: seq<Take>)
    requires Took(env, lb, h0, h, takes)
    ensures if takes == [] then h.port == h0.port else LastPortIs(h.srv, takes, h.port)
  {
    if takes != [] {
      assert takes[|takes| - 1] in takes;
    }
  }

  /** There are SRV records of the name, no host of theirs has an address, but the name has. */
  ghost predicate Misleading(env: Env, nm: Naming, s: seq<Entry>, name: Name, port: int, proto: int, flags: Flags) {
    var e := SrvFor(env, nm, s, name, port, proto);
    Still(env, s) && e != null && Hopeless(env, nm, s, e, flags) && Resolvable(env, nm, s, name, flags)
  }

  /**
    In a table that stays as it is this decides whether records are taken although the address is
    the name's.  The last one taken is then the last of the list, without load balancing.
   */
  ghost predicate Decided(env: Env, nm: Naming, s: seq<Entry>, name: Name, port: int, proto: int, flags: Flags,
                          h: Handle, ret: int, o: Origin, takes: seq<Take>) {
    Still(env, s) ==>
      && (ret == 0 && o.record.None? && takes != [] <==> Misleading(env, nm, s, name, port, proto, flags))
      && (takes != [] ==> h.srv == SrvFor(env, nm, s, name, port, proto))
      && (Misleading(env, nm, s, name, port, proto, flags) && !flags.srvLb ==> takes[|takes| - 1].k == |h.srv.rrs| - 1)
  }

  /**
    In such a table and without load balancing a caller can tell beforehand whether an answer
    without a record will have the initial port.
   */
  ghost predicate KeepsPort(env: Env, nm: Naming, s: seq<Entry>, name: Name, port: int, proto: int, flags: Flags) {
    Misleading(env, nm, s, name, port, proto, flags) ==>
      var rrs := SrvFor(env, nm, s, name, port, proto).rrs;
      rrs != [] && PortOf(rrs[|rrs| - 1]) == InitialPort(port, proto)
  }

  /** The address family that is looked up first. */
  function Preferred(flags: Flags): int {
    if flags.ipv6First || flags.ipv6Only then 28 else 1
  }

  /** In such a table a name is looked up itself if a port is given or there is no SRV entry. */
  ghost predicate AsksForName(env: Env, nm: Naming, s: seq<Entry>, name: Name, port: int, proto: int) {
    && Still(env, s) && |name| < 256
    && (port != 0 || (SrvName(env, name, port, proto).Some? && SrvFor(env, nm, s, name, port, proto) == null))
  }

  /** The first address of its entry is then the answer, unless the name spells one. */
  ghost predicate BeginsWithName(env: Env, nm: Naming, s: seq<Entry>, name: Name, port: int, proto: int, flags: Flags,
                                 h: Handle, ret: int, ip: Ip) {
    var e := EntryFor(nm, s, name, Preferred(flags));
    AsksForName(env, nm, s, name, port, proto) && Literal(env, Preferred(flags), name).None? && e != null ==>
      ret == 0 && h.a == e && h.ipNo == 0 && e.rrs != [] && IsIpOf(e.rrs[0], ip)
  }

  /** A first call of `dns_srv_sip_resolve`. */
  method SipFromStart(c: Cache, h0: Handle, name: Name, portIn: int, protoIn: int, flags: Flags, env: Env,
                      ghost others: multiset<Entry>)
    returns (h: Handle, ret: int, ip: Ip, port: int, ghost o: Origin, ghost takes: seq<Take>)
    requires Balanced(c, h0, flags.srvLb, others) && Bounded(env.rand) && IsFirst(h0)
    modifies c, c.known
    ensures Balanced(c, h, flags.srvLb, others) && ret <= 0 && Tied(c.nm, h, o)
            && Delivers(c.nm, env, h0, h, ret, ip, port, o, takes)
    ensures Took(env, flags.srvLb, Entered(h0, portIn, protoIn), h, takes)
    ensures ret == 0 ==> Sourced(name, h0, o, o, takes)
    ensures SrvName(env, name, portIn, protoIn).None? ==> takes == []
    ensures h.srv != null ==> IsSrvEntryOf(env, name, protoIn, o)
    ensures takes != [] ==> IsForSrv(env, name, portIn)
    ensures Decided(env, c.nm, old(c.order), name, portIn, protoIn, flags, h, ret, o, takes)
    ensures BeginsWithName(env, c.nm, old(c.order), name, portIn, protoIn, flags, h, ret, ip)
    ensures forall x | x in c.known :: x in old(c.known) || fresh(x)
  {
    ghost var s := c.order;
    var done;
    h, done, ret, ip, port, o, takes := SipResolveFirst(c, h0, name, portIn, protoIn, flags, env, others);
    if done {
      DoneDecides(env, c.nm, s, name, portIn, protoIn, flags, h, ret, ip, o, takes);
    } else {
      ghost var s1, h1 := c.order, h;
      h, ret, ip, port, o := ByName(c, h, name, flags, env, others, o);
      NameDecides(env, c.nm, s, s1, name, portIn, protoIn, flags, h1, h, ret, ip, o, takes);
    }
  }

  lemma DoneDecides(env: Env, nm: Naming, s: seq<Entry>, name: Name, port: int, proto: int, flags: Flags, h: Handle,
                    ret: int, ip: Ip, o: Origin, takes: seq<Take>)
    requires FirstForeseen(env, nm, s, name, port, proto, flags, h, true, takes) && port == 0
    requires takes != [] ==> ret == 0 && o.record.Some?
    ensures Decided(env, nm, s, name, port, proto, flags, h, ret, o, takes)
    ensures BeginsWithName(env, nm, s, name, port, proto, flags, h, ret, ip)
  {}

  lemma NameDecides(env: Env, nm: Naming, s: seq<Entry>, s1: seq<Entry>, name: Name, port: int, proto: int,
                    flags: Flags, h1: Handle, h: Handle, ret: int, ip: Ip, o: Origin, takes: seq<Take>)
    requires FirstForeseen(env, nm, s, name, port, proto, flags, h1, false, takes) && Quiet(env, s, s1)
    requires h.srv == h1.srv && (ret == 0 ==> o.record.None?)
    requires Still(env, s1) ==> (ret == 0 <==> |name| < 256 && Resolvable(env, nm, s1, name, flags))
    requires |name| < 256 ==> FirstOf(env, nm, s1, name, Preferred(flags), h.a, h.ipNo, ip)
    ensures Decided(env, nm, s, name, port, proto, flags, h, ret, o, takes)
    ensures BeginsWithName(env, nm, s, name, port, proto, flags, h, ret, ip)
  {}

  /** The addresses of the name itself, unless it is too long. */
  method ByName(c: Cache, h: Handle, name: Name, flags: Flags, env: Env, ghost others: multiset<Entry>,
                ghost o0: Origin)
    returns (h': Handle, ret: int, ip: Ip, port: int, ghost o: Origin)
    requires Balanced(c, h, flags.srvLb, others) && Tied(c.nm, h, o0) && h.a == null
    modifies c, c.known
    ensures Balanced(c, h', flags.srvLb, others) && ret <= 0 && Tied(c.nm, h', o)
    ensures Delivers(c.nm, env, h, h', ret, ip, port, o, []) && h' == h.(a := h'.a, ipNo := h'.ipNo)
    ensures (ret == 0 ==> o.record.None? && o.tr.host == name) && o.srvTr == o0.srvTr
    ensures Still(env, old(c.order)) ==>
              (ret == 0 <==> |name| < 256 && Resolvable(env, c.nm, old(c.order), name, flags))
    ensures |name| < 256 ==> FirstOf(env, c.nm, old(c.order), name, Preferred(flags), h'.a, h'.ipNo, ip)
    ensures forall x | x in c.known :: x in old(c.known) || fresh(x)
  {
    if |name| >= MAX_DNS_NAME {
      h', ret, ip, port, o := h, -E_DNS_NAME_TOO_LONG, [], 0, o0;
    } else {
      h', ret, ip, port, o := AddrOf(c, h, name, flags, env, others, o0);
    }
  }

  /** A later call, which goes on where the handle is. */
  method SipFromHere(c: Cache, h0: Handle, name: Name, flags: Flags, env: Env, ghost others: multiset<Entry>,
                     ghost o0: Origin)
    returns (h: Handle, ret: int, ip: Ip, port: int, ghost o: Origin, ghost takes: seq<Take>)
    requires Balanced(c, h0, flags.srvLb, others) && Bounded(env.rand) && Tied(c.nm, h0, o0) && !IsFirst(h0)
    modifies c, c.known
    ensures Balanced(c, h, flags.srvLb, others) && ret <= 0 && Tied(c.nm, h, o)
            && Delivers(c.nm, env, h0, h, ret, ip, port, o, takes)
    ensures Took(env, flags.srvLb, h0, h, takes)
    ensures ret == 0 ==> Sourced(name, h0, o0, o, takes)
    ensures |name| < MAX_DNS_NAME || h0.srv != null ==> Continues(h0, h, ret, ip, takes)
    ensures h0.srv == null ==> takes == []
    ensures forall x | x in c.known :: x in old(c.known) || fresh(x)
  {
    if h0.srv != null {
      h, ret, ip, port, o, takes := SrvResolveIp(c, h0, h0.srv.name, flags, env, others, o0);
    } else {
      takes := [];
      if |name| >= MAX_DNS_NAME {
        h, ret, ip, port, o := h0, -E_DNS_NAME_TOO_LONG, [], 0, o0;
      } else {
        h, ret, ip, port, o := AddrOf(c, h0, name, flags, env, others, o0);
      }
    }
  }

  /**
    `dns_srv_sip_resolve`: SRV records if no port is given and the name is no address, then the
    addresses of the name; a later call goes on where the handle is.  An answer without a record
    has the initial port exactly if no record was taken on the way, or the last one has that port.
   */
  method SipResolve(c: Cache, h0: Handle, name: Name, portIn: int, protoIn: int, flags: Flags, env: Env,
                    ghost others: multiset<Entry>, ghost o0: Origin)
    returns (h: Handle, ret: int, ip: Ip, port: int, ghost o: Origin, ghost takes: seq<Take>)
    requires Balanced(c, h0, flags.srvLb, others) && Bounded(env.rand) && Tied(c.nm, h0, o0)
    modifies c, c.known
    ensures Balanced(c, h, flags.srvLb, others) && ret <= 0 && Tied(c.nm, h, o)
    ensures Delivers(c.nm, env, h0, h, ret, ip, port, o, takes) && (ret == 0 ==> Sourced(name, h0, o0, o, takes))
    ensures |name| < MAX_DNS_NAME || h0.srv != null ==> Continues(h0, h, ret, ip, takes)
    ensures Took(env, flags.srvLb, Entered(h0, portIn, protoIn), h, takes)
    ensures IsFirst(h0) && h.srv != null ==> IsSrvEntryOf(env, name, protoIn, o)
    ensures IsFirst(h0) && takes != [] ==> IsForSrv(env, name, portIn)
    ensures IsFirst(h0) && SrvName(env, name, portIn, protoIn).None? ==> takes == []
    ensures h0.srv == null && h0.a != null ==> takes == []
    ensures IsFirst(h0) && ret == 0 && portIn != 0 ==> port == portIn
    ensures IsFirst(h0) && ret == 0 && o.record.None? ==>
              (port == InitialPort(portIn, protoIn) <==>
                takes == [] || LastPortIs(h.srv, takes, InitialPort(portIn, protoIn)))
    ensures IsFirst(h0) ==> Decided(env, c.nm, old(c.order), name, portIn, protoIn, flags, h, ret, o, takes)
    ensures IsFirst(h0) ==> BeginsWithName(env, c.nm, old(c.order), name, portIn, protoIn, flags, h, ret, ip)
    ensures IsFirst(h0) && ret == 0 && takes == [] ==>
              port == if portIn != 0 then portIn else if protoIn == 3 then 5061 else 5060
    ensures IsFirst(h0) && ret == 0 && o.record.None? && Still(env, old(c.order)) && !flags.srvLb ==>
              (port == InitialPort(portIn, protoIn) <==>
                KeepsPort(env, c.nm, old(c.order), name, portIn, protoIn, flags))
    ensures forall x | x in c.known :: x in old(c.known) || fresh(x)
  {
    if IsFirst(h0) {
      h, ret, ip, port, o, takes := SipFromStart(c, h0, name, portIn, protoIn, flags, env, others);
      PortIsLast(env, flags.srvLb, Entered(h0, portIn, protoIn), h, takes);
    } else {
      h, ret, ip, port, o, takes := SipFromHere(c, h0, name, flags, env, others, o0);
    }
  }

  /** `dns_ip_resolve` on the address entry of a handle. */
  method AddrOf(c: Cache, h: Handle, name: Name, flags: Flags, env: Env, ghost others: multiset<Entry>,
                ghost o0: Origin)
    returns (h': Handle, ret: int, ip: Ip, port: int, ghost o: Origin)
    requires Balanced(c, h, flags.srvLb, others) && Tied(c.nm, h, o0)
    modifies c, c.known
    ensures Balanced(c, h', flags.srvLb, others) && ret <= 0 && Tied(c.nm, h', o)
    ensures Delivers(c.nm, env, h, h', ret, ip, port, o, []) && h' == h.(a := h'.a, ipNo := h'.ipNo)
    ensures Continues(h, h', ret, ip, [])
    ensures h.a == null ==>
              FirstOf(env, c.nm, old(c.order), name, Preferred(flags), h'.a, h'.ipNo, ip)
    ensures if h.a == null then o.record.None? && o.tr.host == name
            else o.record == o0.record && o.tr.host == o0.tr.host
    ensures o.srvTr == o0.srvTr
    ensures h.a == null && Still(env, old(c.order)) ==> (ret == 0 <==> Resolvable(env, c.nm, old(c.order), name, flags))
    ensures forall x | x in c.known :: x in old(c.known) || fresh(x)
  {
    var e, no;
    ghost var tr;
    e, no, ret, ip, tr := IpResolve(c, h.a, h.ipNo, name, flags, env, others + RefTo(h.srv), o0.tr);
    h' := h.(a := e, ipNo := no);
    port := h.port;
    o := Origin(tr, if h.a == null then None else o0.record, o0.srvTr);
  }

  /** `dns_srv_handle_next`: 0 if there is nothing more to try. */
  function HandleNext(h: Handle, err: int): (r: (Handle, bool))
    ensures r.0 == if err < 0 then h else h.(ipNo := r.0.ipNo)
    ensures err >= 0 ==> r.0.ipNo < 256
    ensures err >= 0 ==> (h.ipNo < 255 ==> r.0.ipNo == h.ipNo + 1) && (h.ipNo == 255 ==> r.0.ipNo == 0)
    ensures r.1 <==> err >= 0 && (h.srv != null || h.a != null)
  {
    if err < 0 then (h, false) else (h.(ipNo := (h.ipNo + 1) % 256), h.srv != null || h.a != null)
  }

  /** The handle has more addresses of an entry that does not expire. */
  predicate HasMore(h: Handle) {
    IsAddressEntry(h.a) && h.a.permanent && h.ipNo + 1 < |h.a.rrs|
  }

  /** `dns_srv_handle_next` and, if there may be something left, another resolve. */
  method TryNext(c: Cache, h0: Handle, err: int, name: Name, port: int, proto: int, flags: Flags, env: Env,
                 ghost others: multiset<Entry>, ghost o0: Origin)
    returns (h: Handle, ret: int, ip: Ip, ghost o: Origin)
    requires Balanced(c, h0, flags.srvLb, others) && Bounded(env.rand) && Tied(c.nm, h0, o0)
    modifies c, c.known
    ensures Balanced(c, h, flags.srvLb, others) && ret <= 0 && Tied(c.nm, h, o)
    ensures err >= 0 && HasMore(h0) && |name| < MAX_DNS_NAME ==>
              ret == 0 && h == h0.(ipNo := h0.ipNo + 1) && IsIpOf(h0.a.rrs[h0.ipNo + 1], ip)
    ensures forall x | x in c.known :: x in old(c.known) || fresh(x)
  {
    var next := HandleNext(h0, err);
    if next.1 {
      var p;
      ghost var takes;
      h, ret, ip, p, o, takes := SipResolve(c, next.0, name, port, proto, flags, env, others, o0);
    } else {
      h, ret, ip, o := next.0, -E_DNS_EOR, [], o0;
    }
  }

  /** How many of the next calls are certain to give a further address of the entry. */
  ghost function Certain(h: Handle, more: nat): nat {
    if !HasMore(h) then 0 else if more < |h.a.rrs| - 1 - h.ipNo then more else |h.a.rrs| - 1 - h.ipNo
  }

  /** The first m of these are the addresses of the entry behind that of the handle, in the order of the list. */
  ghost predicate AreNext(h: Handle, m: nat, ips: seq<Ip>) {
    m <= |ips| && forall j | 0 <= j < m ::
      IsAddressEntry(h.a) && h.ipNo + 1 + j < |h.a.rrs| && IsIpOf(h.a.rrs[h.ipNo + 1 + j], ips[j])
  }

  /** So many calls have been made. */
  ghost predicate IsOnWay(h0: Handle, h: Handle, ret: int, n: nat, more: nat, ips: seq<Ip>) {
    if n <= Certain(h0, more) then h == h0.(ipNo := h0.ipNo + n) && ret >= 0 && |ips| == n && AreNext(h0, n, ips)
    else AreNext(h0, Certain(h0, more), ips)
  }

  lemma OneMore(h0: Handle, h: Handle, ret: int, n: nat, more: nat, ips: seq<Ip>, h': Handle, ret': int, ip: Ip)
    requires IsOnWay(h0, h, ret, n, more, ips)
    requires ret >= 0 && HasMore(h) ==> ret' == 0 && h' == h.(ipNo := h.ipNo + 1) && IsIpOf(h.a.rrs[h.ipNo + 1], ip)
    ensures IsOnWay(h0, h', ret', n + 1, more, if ret' >= 0 then ips + [ip] else ips)
  {
    if n < Certain(h0, more) {
      assert HasMore(h);
    }
  }

  /** So many calls have been made, for a name that may be too long. */
  ghost predicate Along(name: Name, h0: Handle, h: Handle, ret: int, n: nat, more: nat, ips: seq<Ip>) {
    |ips| <= n && (|name| < MAX_DNS_NAME ==> IsOnWay(h0, h, ret, n, more, ips))
  }

  lemma WayBegins(name: Name, h: Handle, more: nat)
    ensures Along(name, h, h, 0, 0, more, [])
  {}

  lemma WayEnds(name: Name, h0: Handle, h: Handle, ret: int, n: nat, more: nat, ips: seq<Ip>)
    requires Along(name, h0, h, ret, n, more, ips) && n <= more && (n == more || ret < 0)
    ensures |ips| <= more && (|name| < MAX_DNS_NAME ==> AreNext(h0, Certain(h0, more), ips))
  {}

  /** One further resolve, after n others of a handle that was at h0. */
  method TryOne(c: Cache, h1: Handle, ret1: int, name: Name, port: int, proto: int, flags: Flags, env: Env,
                ips1: seq<Ip>, ghost others: multiset<Entry>, ghost o1: Origin, ghost h0: Handle, n: nat,
                ghost more: nat)
    returns (h: Handle, ret: int, ips: seq<Ip>, n': nat, ghost o: Origin)
    requires Balanced(c, h1, flags.srvLb, others) && Bounded(env.rand) && Tied(c.nm, h1, o1)
    requires Along(name, h0, h1, ret1, n, more, ips1)
    modifies c, c.known
    ensures Balanced(c, h, flags.srvLb, others) && Tied(c.nm, h, o)
    ensures n' == n + 1 && Along(name, h0, h, ret, n', more, ips)
    ensures forall x | x in c.known :: x in old(c.known) || fresh(x)
  {
    var ip;
    h, ret, ip, o := TryNext(c, h1, ret1, name, port, proto, flags, env, others, o1);
    ips, n' := if ret >= 0 then ips1 + [ip] else ips1, n + 1;
    if |name| < MAX_DNS_NAME {
      OneMore(h0, h1, ret1, n, more, ips1, h, ret, ip);
    }
  }

  /**
    At most `more` further resolves, for as long as there may be something left.  The addresses of an
    entry that does not expire come first, one after another, each once.
   */
  method TryMore(c: Cache, h0: Handle, name: Name, port: int, proto: int, flags: Flags, env: Env, more: nat,
                 ghost others: multiset<Entry>, ghost o0: Origin)
    returns (h: Handle, ips: seq<Ip>)
    requires Balanced(c, h0, flags.srvLb, others) && Bounded(env.rand) && Tied(c.nm, h0, o0)
    modifies c, c.known
    ensures Balanced(c, h, flags.srvLb, others) && |ips| <= more
    ensures |name| < MAX_DNS_NAME ==> AreNext(h0, Certain(h0, more), ips)
    ensures forall x | x in c.known :: x in old(c.known) || fresh(x)
  {
    h, ips := h0, [];
    ghost var o := o0;
    var ret := 0;
    WayBegins(name, h0, more);
    var n: nat := 0;
    while n < more && ret >= 0
      invariant n <= more && Along(name, h0, h, ret, n, more, ips)
      invariant Balanced(c, h, flags.srvLb, others) && Tied(c.nm, h, o)
      invariant forall x | x in c.known :: x in old(c.known) || fresh(x)
    {
      h, ret, ips, n, o := TryOne(c, h, ret, name, port, proto, flags, env, ips, others, o, h0, n, more);
    }
    WayEnds(name, h0, h, ret, n, more, ips);
  }

  lemma NewHandleHoldsNothing(c: Cache, lb: bool, others: multiset<Entry>)
    requires Holding(c, others)
    ensures Balanced(c, NEW_HANDLE, lb, others)
  {
    NoRef(others);
    NoRef(others + RefTo(null));
  }

  /** `dns_srv_handle_init` and a first resolve. */
  method TryFirst(c: Cache, name: Name, port: int, proto: int, flags: Flags, env: Env, ghost others: multiset<Entry>)
    returns (h: Handle, ret: int, ip: Ip, ghost o: Origin)
    requires Holding(c, others) && Bounded(env.rand)
    modifies c, c.known
    ensures Balanced(c, h, flags.srvLb, others) && ret <= 0 && Tied(c.nm, h, o)
    ensures BeginsWithName(env, c.nm, old(c.order), name, port, proto, flags, h, ret, ip)
    ensures forall x | x in c.known :: x in old(c.known) || fresh(x)
  {
    NewHandleHoldsNothing(c, flags.srvLb, others);
    var p;
    ghost var takes;
    o := Origin(Trail(name, []), None, Trail([], []));
    h, ret, ip, p, o, takes := SipResolve(c, NEW_HANDLE, name, port, proto, flags, env, others, o);
  }

  /**
    In a table that stays as it is: the addresses of the name in the order of its entry, as many as are
    asked for, if the name is what is looked up.
   */
  ghost predicate InListOrder(env: Env, nm: Naming, s: seq<Entry>, name: Name, port: int, proto: int, flags: Flags,
                              most: nat, ips: seq<Ip>) {
    var e := EntryFor(nm, s, name, Preferred(flags));
    AsksForName(env, nm, s, name, port, proto) && Literal(env, Preferred(flags), name).None? && e != null ==>
      forall j | 0 <= j < most && j < |e.rrs| :: j < |ips| && IsIpOf(e.rrs[j], ips[j])
  }

  lemma FirstAndMore(env: Env, nm: Naming, s: seq<Entry>, name: Name, port: int, proto: int, flags: Flags, more: nat,
                     h: Handle, ret: int, ip: Ip, rest: seq<Ip>)
    requires BeginsWithName(env, nm, s, name, port, proto, flags, h, ret, ip)
    requires ret >= 0 && |name| < MAX_DNS_NAME ==> AreNext(h, Certain(h, more), rest)
    ensures InListOrder(env, nm, s, name, port, proto, flags, more + 1, (if ret >= 0 then [ip] else []) + rest)
  {
    EntryForIsThere(nm, s, name, Preferred(flags));
    var e, ips := EntryFor(nm, s, name, Preferred(flags)), (if ret >= 0 then [ip] else []) + rest;
    if AsksForName(env, nm, s, name, port, proto) && Literal(env, Preferred(flags), name).None? && e != null {
      forall j | 0 <= j < more + 1 && j < |e.rrs|
        ensures j < |ips| && IsIpOf(e.rrs[j], ips[j])
      {
        if j > 0 {
          assert Certain(h, more) >= j && IsIpOf(h.a.rrs[h.ipNo + 1 + (j - 1)], rest[j - 1]);
          assert ips[j] == rest[j - 1];
        }
      }
    }
  }

  /** A first resolve and further ones. */
  method TryEach(c: Cache, name: Name, port: int, proto: int, flags: Flags, env: Env, more: nat,
                 ghost others: multiset<Entry>)
    returns (h: Handle, ips: seq<Ip>)
    requires Holding(c, others) && Bounded(env.rand)
    modifies c, c.known
    ensures Balanced(c, h, flags.srvLb, others) && |ips| <= more + 1
    ensures InListOrder(env, c.nm, old(c.order), name, port, proto, flags, more + 1, ips)
    ensures forall x | x in c.known :: x in old(c.known) || fresh(x)
  {
    var h1, ret, ip;
    ghost var o;
    h1, ret, ip, o := TryFirst(c, name, port, proto, flags, env, others);
    var rest;
    h, rest := TryMore(c, h1, name, port, proto, flags, env, if ret >= 0 then more else 0, others, o);
    FirstAndMore(env, c.nm, old(c.order), name, port, proto, flags, more, h1, ret, ip, rest);
    ips := (if ret >= 0 then [ip] else []) + rest;
  }

  /**
    The whole life of a handle: a first resolve, further ones, and the put.  In the end the
    references are what they were.
   */
  method TryAll(c: Cache, name: Name, port: int, proto: int, flags: Flags, env: Env, more: nat,
                ghost others: multiset<Entry>)
    returns (ips: seq<Ip>)
    requires Holding(c, others) && Bounded(env.rand)
    modifies c, c.known
    ensures Holding(c, others) && |ips| <= more + 1
    ensures InListOrder(env, c.nm, old(c.order), name, port, proto, flags, more + 1, ips)
    ensures forall x | x in c.known :: x in old(c.known) || fresh(x)
  {
    var h;
    h, ips := TryEach(c, name, port, proto, flags, env, more, others);
    h := HandlePut(c, h, flags.srvLb, others);
  }

  // ----- An answer with the port of another host -----

  /** A table with an SRV entry and an address entry of other names. */
  lemma TwoEntries(nm: Naming, srv: Entry, a: Entry, host: Name)
    requires srv.permanent && srv.rrType == T_SRV && HasRecords(srv) && nm.same(srv.name, srv.name)
             && !nm.same(a.name, srv.name)
    requires a.permanent && a.rrType == T_A && HasRecords(a) && nm.same(a.name, a.name) && !nm.same(srv.name, a.name)
    requires !nm.same(srv.name, host) && !nm.same(a.name, host)
    ensures EntryFor(nm, [srv, a], srv.name, T_SRV) == srv && EntryFor(nm, [srv, a], a.name, T_A) == a
    ensures forall t :: EntryFor(nm, [srv, a], host, t) == null
  {
    var s := [srv, a];
    assert s[1..] == [a];
    assert FirstMatch(nm, s, Query(srv.name, T_SRV, 0, false)) == Some(srv);
    var q := Query(a.name, T_A, 0, false);
    assert FirstMatch(nm, s, q) == FirstMatch(nm, [a], q) == Some(a);
    forall t
      ensures EntryFor(nm, s, host, t) == null
    {
      assert FirstMatch(nm, s, Query(host, t, 0, false)).None?;
    }
  }

  /** A permanent entry goes into a table with room for it. */
  method AddPermanent(c: Cache, name: Name, t: int, rrs: seq<Rr>) returns (e: Entry)
    requires Holding(c, multiset{}) && IsPlain(name) && t != T_CNAME && |rrs| <= MAX_RECORDS
    modifies c, c.known
    ensures Holding(c, multiset{}) && c.order == old(c.order) + [e]
    ensures e.name == name && e.rrType == t && e.rrs == rrs && e.permanent && !e.badName
    ensures fresh(e) && c.known == old(c.known) + {e}
  {
    e := new Entry(name, t, rrs, false, true, 0, 0, 0);
    var ok, k := c.Add(e, c.memUsed + 1, false, 0);
  }

  /** The environment of the example: names are no addresses, and the servers are silent. */
  function ExampleEnv(prefix: Name): Env {
    Env(_ => None, _ => None, _ => Some(prefix), _ => 0, 0, false, (_, _, _) => None)
  }

  lemma ExampleMisleads(prefix: Name, name: Name, host: Name, flags: Flags, srv: Entry, a: Entry, rr: Rr)
    requires IsPlain(prefix + name) && IsPlain(name) && !TooLongForSrv(name)
    requires prefix != [] && |host| != |name| && |host| != |prefix + name| && (flags.ipv6First || !flags.ipv6Only)
    requires srv.name == prefix + name && srv.rrType == T_SRV && srv.rrs == [rr] && srv.permanent && !srv.badName
    requires a.name == name && a.rrType == T_A && HasRecords(a) && a.permanent && HostOf(rr) == host
    ensures Misleading(ExampleEnv(prefix), DNS_NAMING, [srv, a], name, 0, 0, flags)
    ensures SrvFor(ExampleEnv(prefix), DNS_NAMING, [srv, a], name, 0, 0) == srv
  {
    MatchIsCaseEqual(srv.name, srv.name);
    MatchIsCaseEqual(a.name, a.name);
    TwoEntries(DNS_NAMING, srv, a, host);
  }

  method ExampleCache(prefix: Name, name: Name, rr: Rr, ip: Ip) returns (c: Cache, srv: Entry, a: Entry)
    requires IsPlain(prefix + name) && IsPlain(name)
    ensures fresh(c) && Holding(c, multiset{}) && c.nm == DNS_NAMING && c.order == [srv, a]
    ensures fresh(srv) && fresh(a) && c.known == {srv, a}
    ensures srv.name == prefix + name && srv.rrType == T_SRV && srv.rrs == [rr] && srv.permanent && !srv.badName
    ensures a.name == name && a.rrType == T_A && a.rrs == [Rr(Address(ip), 0)] && a.permanent && !a.badName
  {
    c := new Cache();
    srv := AddPermanent(c, prefix + name, T_SRV, [rr]);
    a := AddPermanent(c, name, T_A, [Rr(Address(ip), 0)]);
  }

  /**
    The input that fails, for every name, host and SRV port: an SRV record whose host has no address,
    and a name that has one.  The answer is the name's address with the port of the record.
   */
  method PortOfAnother(prefix: Name, name: Name, host: Name, srvPort: nat, ip: Ip, flags: Flags)
    returns (ret: int, port: int)
    requires IsPlain(prefix + name) && IsPlain(name) && !TooLongForSrv(name)
    requires prefix != [] && |host| != |name| && |host| != |prefix + name| && (flags.ipv6First || !flags.ipv6Only)
    ensures ret == 0 && port == srvPort
    ensures srvPort != SIP_PORT ==> port != InitialPort(0, 0)
  {
    var env, rr := ExampleEnv(prefix), Rr(Srv(0, 0, srvPort, host), 0);
    var c, srv, a := ExampleCache(prefix, name, rr, ip);
    ExampleMisleads(prefix, name, host, flags, srv, a, rr);
    NewHandleHoldsNothing(c, flags.srvLb, multiset{});
    var h, ip';
    ghost var o, takes := Origin(Trail(name, []), None, Trail([], [])), [];
    h, ret, ip', port, o, takes := SipResolve(c, NEW_HANDLE, name, 0, 0, flags, env, multiset{}, o);
    PortIsLast(env, flags.srvLb, Entered(NEW_HANDLE, 0, 0), h, takes);
  }
}
