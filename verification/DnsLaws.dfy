/**
  What a lookup in the DNS cache means, in terms of the fields of the entries alone: which entries can
  be answered, which one is, when a CNAME is followed, and what is removed on the way.  Nothing here
  is used by the cache itself.
 */
module DnsLaws {
  import opened CaseHash
  import opened Options
  import opened DnsTable

  // ----- Names -----

  /** The same letter, perhaps of the other case. */
  predicate IsSameLetter(a: bv8, b: bv8) {
    || a == b
    || (0x41 <= a <= 0x5a && b == a + 0x20)
    || (0x41 <= b <= 0x5a && a == b + 0x20)
  }

  lemma LowerLetter(a: bv8, b: bv8)
    ensures Lower(a) == Lower(b) <==> IsSameLetter(a, b)
  {}

  /** A stored name answers for exactly the names that differ from it in the case of letters only. */
  lemma NamesAnswer(entry: Name, name: Name)
    requires IsPlain(entry)
    ensures NamesMatch(entry, name) <==>
              |entry| == |name| && forall i | 0 <= i < |entry| :: IsSameLetter(entry[i], name[i])
  {
    MatchIsCaseEqual(entry, name);
    forall i | 0 <= i < |entry| && i < |name|
      ensures Lower(entry[i]) == Lower(name[i]) <==> IsSameLetter(entry[i], name[i])
    {
      LowerLetter(entry[i], name[i]);
    }
  }

  // ----- Entries -----

  /** Nobody may remove the entry yet: with the servers down nothing expires. */
  predicate IsAlive(e: Entry, now: int, serversUp: bool) {
    e.permanent || !serversUp || now < e.expire
  }

  /** A CNAME with a target. */
  predicate IsAlias(e: Entry) {
    e.rrType == 5 && e.rrs != [] && !e.badName
  }

  /** The entry answers for the name: it has the type asked for, or it is a CNAME. */
  predicate Shows(nm: Naming, e: Entry, name: Name, t: int, now: int, serversUp: bool) {
    IsAlive(e, now, serversUp) && nm.same(e.name, name) && (e.rrType == t || IsAlias(e))
  }

  /** Entry i is the oldest that answers for the name. */
  ghost predicate IsOldest(nm: Naming, s: seq<Entry>, q: Query, i: nat) {
    && i < |s| && Shows(nm, s[i], q.name, q.rrType, q.now, q.serversUp)
    && forall j | 0 <= j < i :: !Shows(nm, s[j], q.name, q.rrType, q.now, q.serversUp)
  }

  lemma {:induction false} OldestMatches(nm: Naming, s: seq<Entry>, q: Query, i: nat)
    requires IsOldest(nm, s, q, i)
    ensures FirstMatch(nm, s, q) == Some(s[i])
  {
    assert Hits(nm, s[0], q) <==> Shows(nm, s[0], q.name, q.rrType, q.now, q.serversUp);
    if i > 0 {
      OldestMatches(nm, s[1..], q, i - 1);
    }
  }

  lemma {:induction false} NoneMatches(nm: Naming, s: seq<Entry>, q: Query)
    requires forall e | e in s :: !Shows(nm, e, q.name, q.rrType, q.now, q.serversUp)
    ensures FirstMatch(nm, s, q) == None
  {
    if s != [] {
      assert s[0] in s && (Hits(nm, s[0], q) <==> Shows(nm, s[0], q.name, q.rrType, q.now, q.serversUp));
      NoneMatches(nm, s[1..], q);
    }
  }

  /** The oldest entry that answers for the name is the answer, if it has the type asked for. */
  lemma FindsOldest(nm: Naming, s: seq<Entry>, q: Query, i: nat, hops: nat, last: Option<Entry>)
    requires IsOldest(nm, s, q, i) && s[i].rrType == q.rrType
    ensures FlatFind(nm, s, q, hops, last) == Answer(Some(s[i]), false)
  {
    OldestMatches(nm, s, q, i);
  }

  /** A CNAME is followed to its target, for the same type and at the same time; the twelfth is an error. */
  lemma FollowsOldest(nm: Naming, s: seq<Entry>, q: Query, i: nat, hops: nat, last: Option<Entry>)
    requires IsOldest(nm, s, q, i) && s[i].rrType != q.rrType && s[i].rrs[0].rdata.Cname?
    ensures FlatFind(nm, s, q, hops, last) ==
            if hops > 10 then Answer(None, true)
            else FlatFind(nm, s, Query(s[i].rrs[0].rdata.target, q.rrType, q.now, q.serversUp), hops + 1, Some(s[i]))
  {
    OldestMatches(nm, s, q, i);
  }

  /** Without an entry that answers for the name the last CNAME is the answer, or nothing. */
  lemma FindsNone(nm: Naming, s: seq<Entry>, q: Query, hops: nat, last: Option<Entry>)
    requires forall e | e in s :: !Shows(nm, e, q.name, q.rrType, q.now, q.serversUp)
    ensures FlatFind(nm, s, q, hops, last) == Answer(last, false)
  {
    NoneMatches(nm, s, q);
  }

  /** Every entry that answers on the way is used, in order, and no other. */
  lemma UsesOldest(nm: Naming, s: seq<Entry>, q: Query, i: nat, hops: nat)
    requires IsOldest(nm, s, q, i) && s[i].rrType != q.rrType ==> s[i].rrs != [] && s[i].rrs[0].rdata.Cname?
    ensures IsOldest(nm, s, q, i) ==>
              Used(nm, s, q, hops) ==
              if s[i].rrType == q.rrType || hops > 10 then [s[i]]
              else [s[i]] + Used(nm, s, Query(s[i].rrs[0].rdata.target, q.rrType, q.now, q.serversUp), hops + 1)
    ensures (forall e | e in s :: !Shows(nm, e, q.name, q.rrType, q.now, q.serversUp)) ==> Used(nm, s, q, hops) == []
  {
    if IsOldest(nm, s, q, i) {
      OldestMatches(nm, s, q, i);
    } else if forall e | e in s :: !Shows(nm, e, q.name, q.rrType, q.now, q.serversUp) {
      NoneMatches(nm, s, q);
    }
  }

  /** No answer has expired, and no CNAME on the way to it. */
  lemma AnswersAreAlive(nm: Naming, s: seq<Entry>, q: Query)
    ensures var a := FlatFind(nm, s, q, 0, None);
            a.found.Some? ==> a.found.value in s && IsAlive(a.found.value, q.now, q.serversUp)
    ensures forall h | h in Followed(nm, s, q, 0) :: h.Alias? && h.cname in s && IsAlive(h.cname, q.now, q.serversUp)
    ensures forall e | e in Used(nm, s, q, 0) :: e in s && IsAlive(e, q.now, q.serversUp)
  {
    AnswerIsLive(nm, s, q, 0, None);
    forall h | h in Followed(nm, s, q, 0)
      ensures h.Alias? && h.cname in s && IsAlive(h.cname, q.now, q.serversUp)
    {
      assert !Expired(h.cname, q);
    }
    forall e | e in Used(nm, s, q, 0)
      ensures IsAlive(e, q.now, q.serversUp)
    {
      assert !Expired(e, q);
    }
  }

  /** What a lookup removes has expired. */
  lemma SweptIsDead(nm: Naming, s: seq<Entry>, q: Query, e: Entry)
    requires e in SweptBy(nm, s, q, 0)
    ensures e in s && q.serversUp && !e.permanent && q.now >= e.expire
  {
    assert Expired(e, q);
  }

  /** Entry i is dead, and no entry before it answers for the name. */
  ghost predicate IsPassedDead(nm: Naming, s: seq<Entry>, q: Query, i: nat) {
    && i < |s| && !IsAlive(s[i], q.now, q.serversUp)
    && forall j | 0 <= j < i :: !Shows(nm, s[j], q.name, q.rrType, q.now, q.serversUp)
  }

  /** One pass over a list removes exactly the dead entries before the oldest that answers for the name. */
  lemma SweptExactly(nm: Naming, s: seq<Entry>, q: Query, e: Entry)
    ensures e in Swept(nm, s, q) <==> exists i: nat :: IsPassedDead(nm, s, q, i) && s[i] == e
  {
    if e in Swept(nm, s, q) {
      var i := SweptIsPassed(nm, s, q, e);
    } else {
      forall i: nat | IsPassedDead(nm, s, q, i)
        ensures s[i] != e
      {
        PassedIsSwept(nm, s, q, i);
      }
    }
  }

  lemma {:induction false} PassedIsSwept(nm: Naming, s: seq<Entry>, q: Query, i: nat)
    requires IsPassedDead(nm, s, q, i)
    ensures s[i] in Swept(nm, s, q)
  {
    if i > 0 {
      assert !Hits(nm, s[0], q) by {
        assert !Shows(nm, s[0], q.name, q.rrType, q.now, q.serversUp);
      }
      PassedIsSwept(nm, s[1..], q, i - 1);
    }
  }

  lemma {:induction false} SweptIsPassed(nm: Naming, s: seq<Entry>, q: Query, e: Entry) returns (i: nat)
    requires e in Swept(nm, s, q)
    ensures IsPassedDead(nm, s, q, i) && s[i] == e
  {
    assert Expired(e, q);
    if s[0] == e {
      i := 0;
    } else {
      assert !Hits(nm, s[0], q);
      var k := SweptIsPassed(nm, s[1..], q, e);
      i := k + 1;
      forall j | 0 <= j < i
        ensures !Shows(nm, s[j], q.name, q.rrType, q.now, q.serversUp)
      {
        assert j > 0 ==> s[j] == s[1..][j - 1];
      }
    }
  }
}
