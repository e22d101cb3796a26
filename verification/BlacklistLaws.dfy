/**
  What the blacklist promises, in terms of the fields of its entries alone: a reported destination is
  found until it expires, and which answers a report, a deletion and a flush change.
 */
module BlacklistLaws {
  import opened Options
  import opened Blacklist

  /** The entry is about the destination; protocol 0 stands for any, on either side. */
  predicate IsAbout(e: Entry, d: Dst) {
    && e.addr == d.addr && e.port == d.port && (IsIpv6 in e.flags <==> d.v6)
    && (e.proto == 0 || d.proto == 0 || e.proto == d.proto)
  }

  predicate Counts(e: Entry, d: Dst, t: int) {
    t < e.expire && IsAbout(e, d)
  }

  /** Entry i decides about the destination at time t. */
  ghost predicate Decides(s: seq<Entry>, d: Dst, t: int, i: nat) {
    i < |s| && Counts(s[i], d, t) && forall j | 0 <= j < i :: !Counts(s[j], d, t)
  }

  ghost predicate NoneCounts(s: seq<Entry>, d: Dst, t: int) {
    forall j | 0 <= j < |s| :: !Counts(s[j], d, t)
  }

  // ----- Answers -----

  lemma HitsCounts(e: Entry, d: Dst, t: int)
    ensures Hits(e, d, t) <==> Counts(e, d, t)
  {}

  lemma {:induction false} LookUpDecides(s: seq<Entry>, d: Dst, t: int, i: nat)
    requires Decides(s, d, t, i)
    ensures LookUp(s, d, t) == Some(s[i].flags)
  {
    HitsCounts(s[0], d, t);
    if i > 0 {
      LookUpDecides(s[1..], d, t, i - 1);
    }
  }

  lemma {:induction false} LookUpNone(s: seq<Entry>, d: Dst, t: int)
    ensures LookUp(s, d, t) == None <==> NoneCounts(s, d, t)
  {
    if s != [] {
      HitsCounts(s[0], d, t);
      LookUpNone(s[1..], d, t);
      assert forall j | 0 < j < |s| :: s[j] == s[1..][j - 1];
      assert NoneCounts(s, d, t) ==> forall j | 0 <= j < |s[1..]| :: s[1..][j] == s[j + 1];
    }
  }

  lemma {:induction false} Decider(s: seq<Entry>, d: Dst, t: int) returns (i: nat)
    requires LookUp(s, d, t).Some?
    ensures Decides(s, d, t, i)
  {
    HitsCounts(s[0], d, t);
    if Counts(s[0], d, t) {
      i := 0;
    } else {
      var k := Decider(s[1..], d, t);
      i := k + 1;
      forall j | 0 <= j < i
        ensures !Counts(s[j], d, t)
      {
        assert j > 0 ==> s[j] == s[1..][j - 1];
      }
    }
  }

  /** Lists whose entries count for the same answer the same. */
  lemma {:induction false} SameAnswer(s: seq<Entry>, s': seq<Entry>, d: Dst, t: int)
    requires |s'| == |s|
    requires forall j | 0 <= j < |s| :: Counts(s'[j], d, t) == Counts(s[j], d, t)
    requires forall j | 0 <= j < |s| && Counts(s[j], d, t) :: s'[j].flags == s[j].flags
    ensures LookUp(s', d, t) == LookUp(s, d, t)
  {
    if s != [] {
      HitsCounts(s[0], d, t);
      HitsCounts(s'[0], d, t);
      SameAnswer(s[1..], s'[1..], d, t);
    }
  }

  /** An entry that does not count can be left out. */
  lemma {:induction false} LeftOut(s: seq<Entry>, i: nat, d: Dst, t: int)
    requires i < |s| && !Counts(s[i], d, t)
    ensures LookUp(s[..i] + s[i + 1..], d, t) == LookUp(s, d, t)
  {
    HitsCounts(s[0], d, t);
    if i == 0 {
      assert s[..i] + s[i + 1..] == s[1..];
    } else {
      LeftOut(s[1..], i - 1, d, t);
      assert (s[..i] + s[i + 1..])[1..] == s[1..][..i - 1] + s[1..][i..];
    }
  }

  // ----- A report -----

  /** The entry of a report: the one that decides, with the new flags and life, or a new one. */
  ghost predicate IsReported(s: seq<Entry>, d: Dst, now: int, flags: set<Flag>, expire: int, i: nat, e: Entry) {
    if NoneCounts(s, d, now) then i == 0 && e == Entry(flags, d.proto, d.port, d.addr, expire)
    else Decides(s, d, now, i) && e == Entry(s[i].flags + flags, s[i].proto, s[i].port, s[i].addr, expire)
  }

  lemma {:induction false} RenewDecides(s: seq<Entry>, d: Dst, now: int, flags: set<Flag>, expire: int, i: nat)
    requires Decides(s, d, now, i)
    ensures Renew(s, d, now, flags, expire) == s[i := s[i].(flags := s[i].flags + flags, expire := expire)]
  {
    HitsCounts(s[0], d, now);
    if i > 0 {
      RenewDecides(s[1..], d, now, flags, expire, i - 1);
      assert s[1..][i - 1] == s[i];
    }
  }

  /** A report changes or adds exactly that entry. */
  lemma ReportMeans(s: seq<Entry>, d: Dst, now: int, flags: set<Flag>, expire: int) returns (i: nat, e: Entry)
    ensures IsReported(s, d, now, flags, expire, i, e)
    ensures Report(s, d, now, flags, expire) == if NoneCounts(s, d, now) then [e] + s else s[i := e]
  {
    LookUpNone(s, d, now);
    if NoneCounts(s, d, now) {
      i, e := 0, Entry(flags, d.proto, d.port, d.addr, expire);
    } else {
      i := Decider(s, d, now);
      e := Entry(s[i].flags + flags, s[i].proto, s[i].port, s[i].addr, expire);
      RenewDecides(s, d, now, flags, expire, i);
    }
  }

  /** Until it expires a reported destination is found, with the flags reported; with no others if it is new. */
  lemma ReportedIsFound(s: seq<Entry>, d: Dst, now: int, flags: set<Flag>, expire: int, t: int)
    requires IsIpv6 in flags <==> d.v6
    requires now <= t < expire
    ensures var a := LookUp(Report(s, d, now, flags, expire), d, t);
            a.Some? && flags <= a.value && (LookUp(s, d, now) == None ==> a.value == flags)
  {
    LookUpNone(s, d, now);
    var i, e := ReportMeans(s, d, now, flags, expire);
    var s' := Report(s, d, now, flags, expire);
    assert s'[i] == e && Counts(e, d, t);
    forall j | 0 <= j < i
      ensures !Counts(s'[j], d, t)
    {
      assert s'[j] == s[j] && !Counts(s[j], d, now);
    }
    LookUpDecides(s', d, t, i);
  }

  /** Who is concerned by an entry about d with this protocol. */
  predicate IsConcerned(d: Dst, proto: int, other: Dst) {
    && other.addr == d.addr && other.port == d.port && other.v6 == d.v6
    && (proto == 0 || other.proto == 0 || proto == other.proto)
  }

  /**
    A report concerns exactly the destinations its entry is about: those are found until it expires,
    and all others get the answers they got before, at all times.
   */
  lemma ReportConcerns(s: seq<Entry>, d: Dst, now: int, flags: set<Flag>, expire: int, other: Dst, t: int)
    requires IsIpv6 in flags <==> d.v6
    ensures exists i, e ::
              && IsReported(s, d, now, flags, expire, i, e)
              && var a := LookUp(Report(s, d, now, flags, expire), other, t);
                 if IsConcerned(d, e.proto, other) then t < expire ==> a.Some? else a == LookUp(s, other, t)
  {
    var i, e := ReportMeans(s, d, now, flags, expire);
    var s' := Report(s, d, now, flags, expire);
    assert s'[i] == e;
    if IsConcerned(d, e.proto, other) {
      if t < expire {
        assert Counts(e, other, t);
        LookUpNone(s', other, t);
      }
    } else {
      assert !Counts(e, other, t);
      ReportSpares(s, d, now, flags, expire, other, t, i, e);
    }
  }

  lemma ReportSpares(s: seq<Entry>, d: Dst, now: int, flags: set<Flag>, expire: int, other: Dst, t: int, i: nat,
                     e: Entry)
    requires (IsIpv6 in flags <==> d.v6) && IsReported(s, d, now, flags, expire, i, e)
    requires !IsConcerned(d, e.proto, other)
    requires Report(s, d, now, flags, expire) == if NoneCounts(s, d, now) then [e] + s else s[i := e]
    ensures LookUp(Report(s, d, now, flags, expire), other, t) == LookUp(s, other, t)
  {
    var s' := Report(s, d, now, flags, expire);
    if NoneCounts(s, d, now) {
      LeftOut(s', 0, other, t);
      assert s'[..0] + s'[1..] == s;
    } else {
      SameAnswer(s, s', other, t);
    }
  }

  /** In particular all destinations with another address, another port or of the other family. */
  lemma ReportElsewhere(s: seq<Entry>, d: Dst, now: int, flags: set<Flag>, expire: int, other: Dst, t: int)
    requires (IsIpv6 in flags <==> d.v6) && (other.addr != d.addr || other.port != d.port || other.v6 != d.v6)
    ensures LookUp(Report(s, d, now, flags, expire), other, t) == LookUp(s, other, t)
  {
    var i, e := ReportMeans(s, d, now, flags, expire);
    ReportSpares(s, d, now, flags, expire, other, t, i, e);
  }

  /** And all of another protocol, if the report and the entry it changes are about one protocol only. */
  lemma ReportOtherProtocol(s: seq<Entry>, d: Dst, now: int, flags: set<Flag>, expire: int, other: Dst, t: int)
    requires (IsIpv6 in flags <==> d.v6) && d.proto != 0 && other.proto != 0 && other.proto != d.proto
    requires forall i: nat | Decides(s, d, now, i) :: s[i].proto != 0
    ensures LookUp(Report(s, d, now, flags, expire), other, t) == LookUp(s, other, t)
  {
    var i, e := ReportMeans(s, d, now, flags, expire);
    ReportSpares(s, d, now, flags, expire, other, t, i, e);
  }

  /** An entry for any protocol passes a report about one protocol on to the others. */
  lemma ReportSpreads(addr: seq<bv8>, port: int, flag: Flag)
    requires flag != IsIpv6
    ensures var s := [Entry({}, 0, port, addr, 10)];
            && LookUp(s, Dst(2, false, addr, port), 5) == Some({})
            && LookUp(Report(s, Dst(1, false, addr, port), 0, {flag}, 20), Dst(2, false, addr, port), 5) == Some({flag})
  {
    var s := [Entry({}, 0, port, addr, 10)];
    var udp, tcp := Dst(1, false, addr, port), Dst(2, false, addr, port);
    assert Decides(s, udp, 0, 0) && Decides(s, tcp, 5, 0);
    var i, e := ReportMeans(s, udp, 0, {flag}, 20);
    LookUpDecides(s, tcp, 5, 0);
    LookUpDecides([e], tcp, 5, 0);
    assert s[0 := e] == [e] && {} + {flag} == {flag};
  }

  // ----- A deletion -----

  lemma {:induction false} DeleteDecides(s: seq<Entry>, d: Dst, now: int, i: nat)
    requires Decides(s, d, now, i)
    ensures Delete(s, d, now) == s[..i] + s[i + 1..]
  {
    HitsCounts(s[0], d, now);
    if i > 0 {
      DeleteDecides(s[1..], d, now, i - 1);
      assert s[..i] + s[i + 1..] == [s[0]] + (s[1..][..i - 1] + s[1..][i..]);
    }
  }

  /**
    A deletion removes the entry that decides, no other: the answers change for nobody whom that entry
    is not about, and for the destination itself the next entry about it decides.
   */
  lemma DeletionConcerns(s: seq<Entry>, d: Dst, now: int, i: nat, other: Dst, t: int)
    requires Decides(s, d, now, i)
    ensures !IsConcerned(d, s[i].proto, other) ==> LookUp(Delete(s, d, now), other, t) == LookUp(s, other, t)
    ensures t >= now ==> LookUp(Delete(s, d, now), d, t) == LookUp(s[i + 1..], d, t)
  {
    DeleteDecides(s, d, now, i);
    if !IsConcerned(d, s[i].proto, other) {
      assert !Counts(s[i], other, t);
      LeftOut(s, i, other, t);
    }
    if t >= now {
      DropFront(s[..i] + s[i + 1..], i, d, t);
      assert (s[..i] + s[i + 1..])[i..] == s[i + 1..];
    }
  }

  lemma {:induction false} DropFront(s: seq<Entry>, i: nat, d: Dst, t: int)
    requires i <= |s| && forall j | 0 <= j < i :: !Counts(s[j], d, t)
    ensures LookUp(s, d, t) == LookUp(s[i..], d, t)
    decreases i
  {
    if i == 0 {
      assert s[0..] == s;
    } else {
      HitsCounts(s[0], d, t);
      DropFront(s[1..], i - 1, d, t);
      assert s[1..][i - 1..] == s[i..];
    }
  }

  // ----- A flush -----

  /** Exactly the permanent entries stay. */
  lemma {:induction false} FlushKeeps(s: seq<Entry>, e: Entry)
    ensures e in OnlyPermanent(s) <==> e in s && Permanent in e.flags
  {
    if s != [] {
      FlushKeeps(s[1..], e);
    }
  }

  /** A destination for which a permanent entry decides keeps its answer; others keep none but a permanent one. */
  lemma {:induction false} FlushAnswers(s: seq<Entry>, d: Dst, t: int)
    ensures LookUp(s, d, t).Some? && Permanent in LookUp(s, d, t).value ==>
              LookUp(OnlyPermanent(s), d, t) == LookUp(s, d, t)
    ensures LookUp(OnlyPermanent(s), d, t).Some? ==> Permanent in LookUp(OnlyPermanent(s), d, t).value
    ensures LookUp(s, d, t) == None ==> LookUp(OnlyPermanent(s), d, t) == None
  {
    if s != [] {
      FlushAnswers(s[1..], d, t);
      var p := OnlyPermanent(s[1..]);
      assert ([s[0]] + p)[1..] == p;
    }
  }

  // ----- As contracts -----

  /** The destination is found, with these flags, from one time until before another. */
  ghost predicate IsListed(s: seq<Entry>, d: Dst, flags: set<Flag>, from: int, until: int) {
    forall t | from <= t < until :: LookUp(s, d, t).Some? && flags <= LookUp(s, d, t).value
  }

  /** Nobody with another address, another port or of the other family can tell the lists apart. */
  ghost predicate SameElsewhere(s: seq<Entry>, s': seq<Entry>, d: Dst) {
    forall other: Dst, t | other.addr != d.addr || other.port != d.port || other.v6 != d.v6 ::
      LookUp(s', other, t) == LookUp(s, other, t)
  }

  lemma ReportLists(s: seq<Entry>, d: Dst, now: int, flags: set<Flag>, expire: int)
    requires IsIpv6 in flags <==> d.v6
    ensures var s' := Report(s, d, now, flags, expire); IsListed(s', d, flags, now, expire) && SameElsewhere(s, s', d)
  {
    var s' := Report(s, d, now, flags, expire);
    forall t | now <= t < expire
      ensures LookUp(s', d, t).Some? && flags <= LookUp(s', d, t).value
    {
      ReportedIsFound(s, d, now, flags, expire, t);
    }
    forall other: Dst, t | other.addr != d.addr || other.port != d.port || other.v6 != d.v6
      ensures LookUp(s', other, t) == LookUp(s, other, t)
    {
      ReportElsewhere(s, d, now, flags, expire, other, t);
    }
  }

  lemma DeletionSpares(s: seq<Entry>, d: Dst, now: int)
    requires LookUp(s, d, now).Some?
    ensures SameElsewhere(s, Delete(s, d, now), d)
  {
    var i := Decider(s, d, now);
    forall other: Dst, t | other.addr != d.addr || other.port != d.port || other.v6 != d.v6
      ensures LookUp(Delete(s, d, now), other, t) == LookUp(s, other, t)
    {
      DeletionConcerns(s, d, now, i, other, t);
    }
  }
}
