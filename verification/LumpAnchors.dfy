/**
  Where the lumps of a message go (data_lump.c): deletions and anchors are kept sorted by their
  offset, in the header list or in the body list; text to be added may stand anywhere between.
  The lists are sequences here; LumpHeap has their memory.
 */
module LumpAnchors {
  import opened LumpHeap

  /** A lump with a place in the message. */
  predicate Fixed(n: Lump) {
    n.op.Del? || n.op.Nop?
  }

  /** Deletions and anchors have a place in the message, text to be added has none. */
  ghost predicate HasPlace(n: Lump) {
    n.op in {Del, Nop}
  }

  ghost predicate Sorted(s: seq<Lump>) {
    forall i, j | 0 <= i < j < |s| && HasPlace(s[i]) && HasPlace(s[j]) :: s[i].offset <= s[j].offset
  }

  /** Every lump with a place is on this side of end. */
  ghost predicate AllWithin(s: seq<Lump>, end: int) {
    forall i | 0 <= i < |s| && HasPlace(s[i]) :: s[i].offset <= end
  }

  ghost predicate AllBeyond(s: seq<Lump>, end: int) {
    forall i | 0 <= i < |s| && HasPlace(s[i]) :: s[i].offset > end
  }

  ghost predicate NoneFixed(s: seq<Lump>) {
    forall i | 0 <= i < |s| :: !HasPlace(s[i])
  }

  function Inserted(s: seq<Lump>, i: nat, n: Lump): seq<Lump>
    requires i <= |s|
  {
    s[..i] + [n] + s[i..]
  }

  /** Nothing before i stops the search of `del_lump` and `anchor_lump`, but i does, or the list ends there. */
  ghost predicate FirstAbove(s: seq<Lump>, offset: int, i: nat) {
    && i <= |s|
    && (forall j | 0 <= j < i && HasPlace(s[j]) :: s[j].offset <= offset)
    && (i < |s| ==> HasPlace(s[i]) && s[i].offset > offset)
  }

  lemma InsertKeepsSorted(s: seq<Lump>, i: nat, n: Lump)
    requires Sorted(s) && i <= |s|
    requires HasPlace(n) ==>
               && (forall j | 0 <= j < i && HasPlace(s[j]) :: s[j].offset <= n.offset)
               && (i < |s| ==> HasPlace(s[i]) && s[i].offset >= n.offset)
    ensures Sorted(Inserted(s, i, n))
  {
    var r := Inserted(s, i, n);
    forall j, k | 0 <= j < k < |r| && HasPlace(r[j]) && HasPlace(r[k])
      ensures r[j].offset <= r[k].offset
    {
      var j', k' := if j < i then j else j - 1, if k < i then k else k - 1;
      if j == i {
        assert r[k] == s[k'];
      } else if k != i {
        assert r[j] == s[j'] && r[k] == s[k'];
      }
    }
  }

  lemma InsertKeepsSides(s: seq<Lump>, i: nat, n: Lump, end: int)
    requires i <= |s|
    ensures AllWithin(s, end) && (HasPlace(n) ==> n.offset <= end) ==> AllWithin(Inserted(s, i, n), end)
    ensures AllBeyond(s, end) && (HasPlace(n) ==> n.offset > end) ==> AllBeyond(Inserted(s, i, n), end)
    ensures NoneFixed(s) && !HasPlace(n) ==> NoneFixed(Inserted(s, i, n))
  {
    var r := Inserted(s, i, n);
    assert forall j | 0 <= j < |r| :: r[j] == if j < i then s[j] else if j == i then n else s[j - 1];
  }

  /** In a sorted list the search of `anchor_lump2` finds an equal offset if there is one. */
  lemma EqualIsFound(s: seq<Lump>, offset: int, i: nat)
    requires Sorted(s) && i <= |s|
    requires forall j | 0 <= j < i && HasPlace(s[j]) :: s[j].offset < offset
    requires i < |s| ==> HasPlace(s[i]) && s[i].offset >= offset
    ensures (i < |s| && s[i].offset == offset) <==> exists j :: 0 <= j < |s| && HasPlace(s[j]) && s[j].offset == offset
  {
    if j :| 0 <= j < |s| && HasPlace(s[j]) && s[j].offset == offset {
      assert i <= j;
    }
  }

  datatype Where = Header | Body

  /** The lists of a message. */
  class Message {
    const len: int
    var eoh: int            // offset of the end of the headers, -1 until it is parsed
    var addRm: seq<Lump>
    var bodyLumps: seq<Lump>

    ghost predicate Valid()
      reads this
    {
      Sorted(addRm) && Sorted(bodyLumps)
    }

    /** Headers on this side of the end of the headers, the body on the other. */
    ghost predicate Sides()
      reads this
    {
      if eoh < 0 then NoneFixed(bodyLumps) else AllWithin(addRm, eoh) && AllBeyond(bodyLumps, eoh)
    }

    constructor (len: int)
      ensures Valid() && Sides() && this.len == len && eoh == -1
    {
      this.len, eoh, addRm, bodyLumps := len, -1, [], [];
    }

    /** The end of the headers becomes known: lumps stay on their sides exactly if none is beyond it already. */
    method ParsedEoh(end: nat)
      requires Valid() && Sides() && eoh < 0
      modifies `eoh
      ensures Valid() && eoh == end
      ensures Sides() <==> AllWithin(addRm, end)
    {
      eoh := end;
    }

    function ListFor(offset: int): Where
      reads this
    {
      if eoh >= 0 && offset > eoh then Body else Header
    }

    function List(w: Where): seq<Lump>
      reads this
    {
      if w.Body? then bodyLumps else addRm
    }

    /** `tmp->next=t` and the link of the lump before, or of the list. */
    method Put(w: Where, i: nat, n: Lump)
      requires Valid() && i <= |List(w)|
      requires Sorted(Inserted(List(w), i, n)) && (HasPlace(n) ==> w == ListFor(n.offset))
      modifies `addRm, `bodyLumps
      ensures Valid() && (old(Sides()) ==> Sides())
      ensures List(w) == Inserted(old(List(w)), i, n)
      ensures if w.Body? then addRm == old(addRm) else bodyLumps == old(bodyLumps)
    {
      InsertKeepsSides(List(w), i, n, eoh);
      if w.Body? {
        bodyLumps := Inserted(bodyLumps, i, n);
      } else {
        addRm := Inserted(addRm, i, n);
      }
    }

    /** The search of `del_lump` and `anchor_lump`. */
    method Place(s: seq<Lump>, offset: int) returns (i: nat)
      ensures FirstAbove(s, offset, i)
    {
      i := 0;
      while i < |s| && !(Fixed(s[i]) && s[i].offset > offset)
        invariant i <= |s| && forall j | 0 <= j < i && HasPlace(s[j]) :: s[j].offset <= offset
      {
        i := i + 1;
      }
    }

    /** `del_lump` and `anchor_lump`: behind all lumps at its offset or below; false without memory. */
    method AddFixed(op: Op, offset: int, length: int, malloc: bool) returns (ok: bool, ghost i: nat)
      requires Valid() && (op.Del? || op.Nop?)
      requires offset <= len && (op.Del? ==> offset + length <= len)    // the source aborts otherwise
      modifies `addRm, `bodyLumps
      ensures ok == malloc && Valid() && (old(Sides()) ==> Sides())
      ensures var w := ListFor(offset);
              && FirstAbove(old(List(w)), offset, i)
              && List(w) == if ok then Inserted(old(List(w)), i, Lump(op, 0, offset, length, NoFlag, 0, 0, 0))
                            else old(List(w))
      ensures if ListFor(offset).Body? then addRm == old(addRm) else bodyLumps == old(bodyLumps)
    {
      var w := ListFor(offset);
      var t := Place(List(w), offset);
      i := t;
      if !malloc {
        return false, i;
      }
      var n := Lump(op, 0, offset, length, NoFlag, 0, 0, 0);
      InsertKeepsSorted(List(w), t, n);
      Put(w, t, n);
      ok := true;
    }

    /** `anchor_lump2`: an existing lump at the offset if there is one, a new anchor otherwise. */
    method Anchor2(offset: int, length: int, malloc: bool) returns (ok: bool, isRef: bool, i: nat)
      requires Valid() && offset <= len
      modifies `addRm, `bodyLumps
      ensures Valid() && (old(Sides()) ==> Sides())
      ensures var w := ListFor(offset);
              && (isRef <==>
                  exists j :: 0 <= j < |old(List(w))| && HasPlace(old(List(w))[j]) && old(List(w))[j].offset == offset)
              && (ok <==> isRef || malloc)
              && i <= |old(List(w))|
              && List(w) ==
                   (if ok && !isRef then Inserted(old(List(w)), i, Lump(Nop, 0, offset, length, NoFlag, 0, 0, 0))
                    else old(List(w)))
              && (ok ==> i < |List(w)| && HasPlace(List(w)[i]) && List(w)[i].offset == offset)
      ensures if ListFor(offset).Body? then addRm == old(addRm) else bodyLumps == old(bodyLumps)
    {
      var w := ListFor(offset);
      var s := List(w);
      i := 0;
      while i < |s| && !(Fixed(s[i]) && s[i].offset >= offset)
        invariant i <= |s| && forall j | 0 <= j < i && HasPlace(s[j]) :: s[j].offset < offset
      {
        i := i + 1;
      }
      EqualIsFound(s, offset, i);
      if i < |s| && s[i].offset == offset {
        return true, true, i;
      }
      if !malloc {
        return false, false, i;
      }
      var n := Lump(Nop, 0, offset, length, NoFlag, 0, 0, 0);
      InsertKeepsSorted(s, i, n);
      Put(w, i, n);
      return true, false, i;
    }

    /** `append_new_lump` (i at the end), `add_new_lump` (behind the first) and `insert_new_lump` (0). */
    method AddText(w: Where, i: nat, text: Ptr, length: int)
      requires Valid() && i <= |List(w)|
      modifies `addRm, `bodyLumps
      ensures Valid() && (old(Sides()) ==> Sides())
      ensures List(w) == Inserted(old(List(w)), i, Lump(Add, text, 0, length, NoFlag, 0, 0, 0))
    {
      var n := Lump(Add, text, 0, length, NoFlag, 0, 0, 0);
      InsertKeepsSorted(List(w), i, n);
      Put(w, i, n);
    }
  }
}
