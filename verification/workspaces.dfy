/** Workspaces: the lists of page extents that the page tables are kept in step with. */
module Workspaces {
  import opened Bytes
  import opened Options

  const USPACE_BOT := 0x10_0000
  const USPACE_TOP := 0x8000_0000_0000
  /** Page numbers of user space. */
  const USER_FIRST := 0x100
  const USER_LIMIT := 0x8_0000_0000
  /** The last page that faults into the code workspace: the page of USPACE_TOP / 2. */
  const SPLIT_PAGE := 0x4_0000_0000

  /** Consecutive pages: vbase is backed by pbase.  The size is in bytes and need not be whole pages. */
  datatype Extent = Extent(vbase: nat, pbase: nat, size: nat, flags: nat) {
    function Count(): nat {
      UnitsFor(size)
    }

    function First(): nat {
      vbase / 0x1000
    }

    predicate Covers(vp: nat) {
      First() <= vp < First() + Count()
    }

    /** The page-table entry the extent gives page vp. */
    function EntryFor(vp: nat): nat
      requires First() <= vp
    {
      pbase / 0x1000 * 0x1000 + flags + (vp - First()) * 0x1000
    }

    function FrameFor(vp: nat): nat
      requires First() <= vp
    {
      pbase / 0x1000 + (vp - First())
    }

    /** What add_pgs_to_ws is told to store: present pages in user space, a size that the 32-bit
        loop counter of swap_ws can step through, memory that exists. */
    predicate Good() {
      && flags % 2 == 1 && flags < 0x1000
      && size <= 0xFFFF_F000
      && USER_FIRST <= First() && First() + Count() <= USER_LIMIT
      && pbase / 0x1000 + Count() <= 0x100_0000_0000
    }
  }

  ghost predicate AllGood(es: seq<Extent>) {
    forall e :: e in es && e.size != 0 ==> e.Good()
  }

  ghost predicate Covered(es: seq<Extent>, vp: nat) {
    exists i :: 0 <= i < |es| && es[i].Covers(vp)
  }

  /** The entry a list gives page vp; a later extent overrides an earlier one. */
  function Mapped(es: seq<Extent>, vp: nat): Option<nat> {
    if es == [] then None
    else if es[|es| - 1].Covers(vp) then Some(es[|es| - 1].EntryFor(vp))
    else Mapped(es[..|es| - 1], vp)
  }

  lemma {:induction false} MappedIffCovered(es: seq<Extent>, vp: nat)
    ensures Mapped(es, vp).Some? <==> Covered(es, vp)
  {
    if es != [] {
      var init := es[..|es| - 1];
      MappedIffCovered(init, vp);
      if Covered(init, vp) {
        var i :| 0 <= i < |init| && init[i].Covers(vp);
        assert es[i].Covers(vp);
      }
      if Covered(es, vp) && !es[|es| - 1].Covers(vp) {
        var i :| 0 <= i < |es| && es[i].Covers(vp);
        assert init[i].Covers(vp);
      }
    }
  }

  lemma {:induction false} MappedConcat(es: seq<Extent>, fs: seq<Extent>, vp: nat)
    ensures Mapped(es + fs, vp) == match Mapped(fs, vp) case Some(e) => Some(e) case None => Mapped(es, vp)
  {
    if fs == [] {
      assert es + fs == es;
    } else {
      MappedConcat(es, fs[..|fs| - 1], vp);
      assert (es + fs)[..|es + fs| - 1] == es + fs[..|fs| - 1];
    }
  }

  /** What add_pgs_to_ws does to a list: an empty last node is filled, otherwise one is added. */
  function Added(es: seq<Extent>, e: Extent): seq<Extent>
    requires es != []
  {
    if es[|es| - 1].size != 0 then es + [e] else es[..|es| - 1] + [e]
  }

  /** Adding an extent maps its pages and leaves the others as they were. */
  lemma AddedMaps(es: seq<Extent>, e: Extent, vp: nat)
    requires es != []
    ensures Mapped(Added(es, e), vp) == if e.Covers(vp) then Some(e.EntryFor(vp)) else Mapped(es, vp)
  {
    var t := Added(es, e);
    assert t[..|t| - 1] == if es[|es| - 1].size != 0 then es else es[..|es| - 1];
  }

  class Workspace {
    var extents: seq<Extent>

    ghost predicate Valid()
      reads this
    {
      extents != [] && AllGood(extents)
    }

    constructor ()
      ensures Valid() && extents == [Extent(0, 0, 0, 0)]
    {
      extents := [Extent(0, 0, 0, 0)];
    }

    method AddPgs(vbase: nat, pbase: nat, size: nat, fl: nat)
      requires extents != []
      modifies this
      ensures extents == Added(old(extents), Extent(vbase, pbase, size, fl))
    {
      var o := 0;
      while o + 1 < |extents|
        invariant o < |extents|
      {
        o := o + 1;
      }
      if extents[o].size != 0 {
        extents := extents + [Extent(0, 0, 0, 0)];
        o := o + 1;
      }
      extents := extents[o := Extent(vbase, pbase, size, fl)];
    }
  }
}
