/**
  What an entry made of a DNS answer is, in terms of the fields of the records alone: which records it
  is made of, when they expire, how their data is aligned and where the pointers in it point to.
 */
module EntryLaws {
  import opened CaseHash
  import opened Options
  import opened DnsTable
  import opened EntryLayout

  /** The record answers for the name with this type. */
  predicate IsFor(nm: Naming, r: Rdata, name: Name, t: int) {
    nm.same(r.name, name) && r.rrType == t
  }

  /** Record i decides: the first of the type asked for, or a CNAME. */
  ghost predicate IsDecisive(nm: Naming, list: seq<Rdata>, name: Name, t: int, i: nat) {
    && i < |list| && (IsFor(nm, list[i], name, t) || IsFor(nm, list[i], name, 5))
    && forall j | 0 <= j < i :: !IsFor(nm, list[j], name, t) && !IsFor(nm, list[j], name, 5)
  }

  /** The type of an entry is that of the decisive record. */
  lemma {:induction false} TypeDecided(nm: Naming, list: seq<Rdata>, name: Name, t: int, i: nat)
    requires IsDecisive(nm, list, name, t, i)
    ensures TypeFor(nm, list, name, t) == list[i].rrType
  {
    assert Matches(nm, list[0], name, t) <==> IsFor(nm, list[0], name, t);
    if i > 0 {
      TypeDecided(nm, list[1..], name, t, i - 1);
    }
  }

  lemma {:induction false} TypeUndecided(nm: Naming, list: seq<Rdata>, name: Name, t: int)
    requires forall r | r in list :: !IsFor(nm, r, name, t) && !IsFor(nm, r, name, 5)
    ensures TypeFor(nm, list, name, t) == t && Chosen(nm, list, name, t, true) == []
  {
    if list != [] {
      assert list[0] in list;
      TypeUndecided(nm, list[1..], name, t);
    }
  }

  /** A record more at the end of the answer is a record more at the end of the entry, or of the rest. */
  lemma RecordsInOrder(nm: Naming, list: seq<Rdata>, x: Rdata, name: Name, t: int)
    ensures Chosen(nm, [], name, t, true) == Chosen(nm, [], name, t, false) == []
    ensures Chosen(nm, list + [x], name, t, true)
         == Chosen(nm, list, name, t, true) + if IsFor(nm, x, name, t) then [x] else []
    ensures Chosen(nm, list + [x], name, t, false)
         == Chosen(nm, list, name, t, false) + if IsFor(nm, x, name, t) then [] else [x]
  {
    ChosenSnoc(nm, list, x, name, t, true);
    ChosenSnoc(nm, list, x, name, t, false);
  }

  /** Eight types can be cached: A, CNAME, PTR, TXT, AAAA, SRV, NAPTR and EBL. */
  lemma TypesSupported(t: int)
    ensures Supported(t) <==> t in {1, 5, 12, 16, 28, 33, 35, 65300}
  {}

  /** The life of a record in seconds: its own, but no less than the least and no more than the most. */
  function LifeOf(ttl: int, least: int, most: int): int {
    if ttl < least then least else if most < ttl then most else ttl
  }

  /** Records expire after their life, in ticks of a sixteenth of a second, and the entry with the last of them. */
  lemma EntryExpires(sz: Sizes, name: Name, t: int, rs: seq<Rdata>, e: RdEntry, mem: seq<bv8>, now: int, least: nat,
                     most: nat, i: nat)
    requires IsEntryOf(sz, name, t, rs, e, mem, now, least, most) && i < |rs|
    ensures |e.rrs| == |rs| && e.rrs[i].expire == now + 16 * LifeOf(rs[i].ttl, least, most) <= e.expire
    ensures exists j :: 0 <= j < |rs| && e.expire == now + 16 * LifeOf(rs[j].ttl, least, most)
  {
    var m: nat :| e.expire == now + ToTicks(m) && Expiries(rs, e.rrs, now, least, most, m);
    var j :| 0 <= j < |e.rrs| && e.rrs[j].expire == now + ToTicks(m);
    assert e.rrs[j].expire == now + 16 * LifeOf(rs[j].ttl, least, most);
  }

  lemma PlaceAligned(sz: Sizes, name: Name, t: int, rs: seq<Rdata>, i: nat, p: PlacedRr)
    requires Sane(sz) && i < |rs| && IsPlaced(sz, name, t, rs, i, p)
    ensures Aligned(p.at, sz.ptr) && p.dataAt == p.at + DataAt(sz, t)
  {
    BlockSizesAligned(sz, t, rs[..i]);
    AlignedSum(Header(sz, name), BlockSizes(sz, t, rs[..i]), sz.ptr);
  }

  lemma OffsetAligned(sz: Sizes, t: int, at: nat)
    requires Sane(sz) && Aligned(at, sz.ptr)
    ensures t in {16, 35, 65300} ==> Aligned(at + DataAt(sz, t), sz.ptr)
    ensures t == 33 && sz.ptr % 2 == 0 ==> (at + DataAt(sz, t)) % 2 == 0
  {
    if t in {16, 35, 65300} {
      AlignedSum(at, DataAt(sz, t), sz.ptr);
    } else if t == 33 && sz.ptr % 2 == 0 {
      AlignedIsEven(at, sz.ptr);
      AlignedIsEven(DataAt(sz, t), 2);
    }
  }

  /** The data is aligned as its type needs: SRV to two bytes, types with pointers to the size of one. */
  ghost predicate IsAligned(sz: Sizes, t: int, at: nat)
    requires Sane(sz)
  {
    (t in {16, 35, 65300} ==> Aligned(at, sz.ptr)) && (t == 33 && sz.ptr % 2 == 0 ==> at % 2 == 0)
  }

  lemma PlacedAligned(sz: Sizes, name: Name, t: int, rs: seq<Rdata>, i: nat, p: PlacedRr)
    requires Sane(sz) && i < |rs| && IsPlaced(sz, name, t, rs, i, p)
    ensures IsAligned(sz, t, p.dataAt)
  {
    PlaceAligned(sz, name, t, rs, i, p);
    OffsetAligned(sz, t, p.at);
  }

  lemma DataAligned(sz: Sizes, name: Name, t: int, rs: seq<Rdata>, e: RdEntry, mem: seq<bv8>, i: nat)
    requires Complete(sz, name, t, rs, e, mem) && i < |rs|
    ensures IsAligned(sz, t, e.rrs[i].dataAt)
  {
    assert IsPlaced(sz, name, t, rs, i, e.rrs[i]);
    PlacedAligned(sz, name, t, rs, i, e.rrs[i]);
  }

  /** Null pointers stay null, and every other pointer into the data of a record moves with the data. */
  lemma PointersMove(sz: Sizes, name: Name, t: int, rs: seq<Rdata>, e: RdEntry, mem: seq<bv8>, i: nat, k: nat)
    requires Complete(sz, name, t, rs, e, mem) && i < |rs| && k < |rs[i].ptrs| && t in {16, 35, 65300}
    ensures |e.rrs[i].ptrs| == |rs[i].ptrs|
    ensures e.rrs[i].ptrs[k] == if rs[i].ptrs[k] == 0 then 0 else rs[i].ptrs[k] - rs[i].base + e.rrs[i].dataAt
  {
    assert e.rrs[i].ptrs == Translated(t, rs[i], e.rrs[i].dataAt);
  }

  lemma ByteInPlace(data: seq<bv8>, at: nat, mem: seq<bv8>, j: nat)
    requires InPlace(data, at, mem) && j < |data|
    ensures at + j < |mem| && mem[at + j] == data[j]
  {
    assert mem[at..at + |data|][j] == mem[at + j];
  }

  /** The data of every record is in the block, byte by byte. */
  lemma DataCopied(sz: Sizes, name: Name, t: int, rs: seq<Rdata>, e: RdEntry, mem: seq<bv8>, i: nat, j: nat)
    requires Complete(sz, name, t, rs, e, mem) && i < |rs| && j < |rs[i].data|
    ensures e.rrs[i].dataAt + j < |mem| && mem[e.rrs[i].dataAt + j] == rs[i].data[j]
  {
    assert IsPlaced(sz, name, t, rs, i, e.rrs[i]);
    ByteInPlace(rs[i].data, e.rrs[i].dataAt, mem, j);
  }
}
