/** The image builder's second half: writing the node graph to the image file. */
module ImageWriter {
  import opened Bytes
  import opened Options
  import opened ByteStores
  import opened ImageFormat
  import opened ImageBuilder

  /** The output file, by offset. */
  type Disk = Store

  // ----- what has been written -----

  const TABLE_AT := 0x1000
  const MIRROR := 0x1000

  function SlotAt(p: nat): nat {
    TABLE_AT + SLOT_BYTES * p
  }

  /** The node as it is written: for the continuation of a string (and of a data list, which the
      builder never makes) the value written is part of a host address, not a node number. */
  function Emitted(x: Node, addr: nat -> nat): Node {
    match x
    case Str(size, chars, next) => if next == 0 then x else Str(size, chars, addr(next))
    case Data(blocks, lba, next, last) => if next == 0 then x else Data(blocks, lba, addr(next), last)
    case _ => x
  }

  /** The slot of node p, in the table or its mirror, has its final contents. */
  ghost predicate Settled(d: Disk, g: Graph, addr: nat -> nat, p: nat, add: nat) {
    p in g.nodes && Fits(Emitted(g.nodes[p], addr))
    && Read(d, SlotAt(p) + add, SLOT_BYTES) == Encode(Emitted(g.nodes[p], addr))
  }

  function Padded(b: seq<Byte>, n: nat): seq<Byte> {
    b + Zeros(if |b| <= n then n - |b| else 0)
  }

  /** The extent of data node p holds its file, padded with zeros. */
  ghost predicate Stored(d: Disk, g: Graph, p: nat) {
    p in g.nodes && g.nodes[p].Data? && g.nodes[p].blocks > 0 ==>
      p in g.files
      && Read(d, g.nodes[p].lba * BLOCK, g.nodes[p].blocks * BLOCK) == Padded(g.files[p], g.nodes[p].blocks * BLOCK)
  }

  /** Nothing that was final has been disturbed, nor the header. */
  ghost predicate Preserves(d: Disk, d': Disk, g: Graph, addr: nat -> nat) {
    && (forall p :: Settled(d, g, addr, p, 0) ==> Settled(d', g, addr, p, 0))
    && (forall p :: Settled(d, g, addr, p, MIRROR) ==> Settled(d', g, addr, p, MIRROR))
    && (forall p :: Stored(d, g, p) ==> Stored(d', g, p))
    && Read(d', TABLE_AT, SLOT_BYTES) == Read(d, TABLE_AT, SLOT_BYTES)
  }

  /** What one 4 KiB table and the file data after it allow. */
  ghost predicate Laid(g: Graph, addr: nat -> nat, limit: nat) {
    && Sorted(g, LAST_ENTRY + 1, limit)
    && forall p :: addr(p) < U32_LIMIT
  }

  lemma EmittedFits(x: Node, addr: nat -> nat)
    requires Fits(x) && forall p :: addr(p) < U32_LIMIT
    ensures Fits(Emitted(x, addr))
  {
  }

  lemma SlotsApart(p: nat, q: nat)
    requires p != q
    ensures SlotAt(p) + SLOT_BYTES <= SlotAt(q) || SlotAt(q) + SLOT_BYTES <= SlotAt(p)
  {
  }

  lemma MirrorApart(p: nat, q: nat)
    requires p <= LAST_ENTRY && 0 < q
    ensures SlotAt(p) + SLOT_BYTES <= SlotAt(q) + MIRROR
    ensures TABLE_AT + SLOT_BYTES <= SlotAt(q)
  {
  }

  lemma SlotsBeforeData(p: nat, add: nat)
    requires p <= LAST_ENTRY && add <= MIRROR
    ensures SlotAt(p) + add + SLOT_BYTES <= FIRST_DATA * BLOCK
  {
  }

  /** Node 169 is the last one with room for its slot and the mirror's: from the next on the mirror runs
      into the first file's blocks, and from the one after that the table into the mirror of node 1.  The
      builder begins a second table only after node 255. */
  lemma RoomForSlotIff(p: nat)
    ensures SlotAt(p) + MIRROR + SLOT_BYTES <= FIRST_DATA * BLOCK <==> p <= LAST_ENTRY
    ensures (forall q: nat :: 0 < q ==> SlotAt(p) + SLOT_BYTES <= SlotAt(q) + MIRROR) <==> p <= LAST_ENTRY + 1
  {
    if p <= LAST_ENTRY + 1 {
      forall q: nat | 0 < q
        ensures SlotAt(p) + SLOT_BYTES <= SlotAt(q) + MIRROR
      {
      }
    } else {
      assert SlotAt(p) + SLOT_BYTES > SlotAt(1) + MIRROR;
    }
  }

  lemma SlotKeepsSlots(d: Disk, g: Graph, addr: nat -> nat, p: nat, add: nat, q: nat, a: nat, s: seq<Byte>)
    requires 0 < p <= LAST_ENTRY && 0 < q <= LAST_ENTRY && (add == 0 || add == MIRROR) && (a == 0 || a == MIRROR)
    requires |s| == SLOT_BYTES && (q != p || a != add) && Settled(d, g, addr, q, a)
    ensures Settled(Put(d, SlotAt(p) + add, s), g, addr, q, a)
  {
    hide Read, Put, Encode, Fits, Emitted, SlotAt;
    if q != p { SlotsApart(p, q); }
    MirrorApart(p, q);
    MirrorApart(q, p);
    PutElsewhere(d, SlotAt(p) + add, s, SlotAt(q) + a, SLOT_BYTES);
  }

  lemma SlotKeepsFiles(d: Disk, g: Graph, limit: nat, p: nat, add: nat, q: nat, s: seq<Byte>)
    requires ExtentsApart(g.nodes, FIRST_DATA, limit) && p <= LAST_ENTRY && (add == 0 || add == MIRROR)
    requires |s| == SLOT_BYTES && Stored(d, g, q)
    ensures Stored(Put(d, SlotAt(p) + add, s), g, q)
  {
    hide Read, Put, SlotAt, ExtentsApart, Padded;
    if q in g.nodes && g.nodes[q].Data? && g.nodes[q].blocks > 0 {
      SlotsBeforeData(p, add);
      ExtentStart(g, limit, q);
      PutElsewhere(d, SlotAt(p) + add, s, g.nodes[q].lba * BLOCK, g.nodes[q].blocks * BLOCK);
    }
  }

  /** Writing a slot, of the table or the mirror, spoils no other slot and no file. */
  lemma SlotWritten(d: Disk, g: Graph, addr: nat -> nat, limit: nat, p: nat, add: nat)
    requires Laid(g, addr, limit) && p in g.nodes && (add == 0 || add == MIRROR)
    ensures Fits(Emitted(g.nodes[p], addr))
    ensures var d' := Put(d, SlotAt(p) + add, Encode(Emitted(g.nodes[p], addr)));
            Settled(d', g, addr, p, add) && Preserves(d, d', g, addr)
  {
    hide Read, Put, Encode, Fits, Emitted, SlotAt, HasFile, ExtentsApart, Padded, Stored;
    EmittedFits(g.nodes[p], addr);
    var s := Encode(Emitted(g.nodes[p], addr));
    var d' := Put(d, SlotAt(p) + add, s);
    PutThenRead(d, SlotAt(p) + add, s);
    MirrorApart(p, p);
    PutElsewhere(d, SlotAt(p) + add, s, TABLE_AT, SLOT_BYTES);
    forall q, a | (a == 0 || a == MIRROR) && Settled(d, g, addr, q, a)
      ensures Settled(d', g, addr, q, a)
    {
      if q != p || a != add { SlotKeepsSlots(d, g, addr, p, add, q, a, s); }
    }
    forall q | Stored(d, g, q)
      ensures Stored(d', g, q)
    {
      SlotKeepsFiles(d, g, limit, p, add, q, s);
    }
  }

  lemma ExtentStart(g: Graph, limit: nat, q: nat)
    requires ExtentsApart(g.nodes, FIRST_DATA, limit) && q in g.nodes && g.nodes[q].Data? && g.nodes[q].blocks > 0
    ensures FIRST_DATA * BLOCK <= g.nodes[q].lba * BLOCK
  {
    assert Within(g.nodes[q], FIRST_DATA, limit);
  }

  lemma ExtentBytesApart(a: Node, b: Node)
    requires a.Data? && b.Data? && Apart(a, b) && a.blocks > 0 && b.blocks > 0
    ensures (a.lba + a.blocks) * BLOCK <= b.lba * BLOCK || (b.lba + b.blocks) * BLOCK <= a.lba * BLOCK
  {
  }

  /** Writing a file's blocks spoils no slot and no other file. */
  lemma FileWritten(d: Disk, g: Graph, addr: nat -> nat, limit: nat, p: nat)
    requires Laid(g, addr, limit) && p in g.nodes && g.nodes[p].Data? && g.nodes[p].blocks > 0
    ensures p in g.files && |g.files[p]| <= g.nodes[p].blocks * BLOCK
    ensures var d' := Put(d, g.nodes[p].lba * BLOCK, Padded(g.files[p], g.nodes[p].blocks * BLOCK));
            Stored(d', g, p) && Preserves(d, d', g, addr)
  {
    hide Read, Put, Encode, Fits, Emitted, SlotAt, ExtentsApart, UnitsFor, LastBytes;
    assert HasFile(g, p);
    BlocksHold(|g.files[p]|);
    var s, at := Padded(g.files[p], g.nodes[p].blocks * BLOCK), g.nodes[p].lba * BLOCK;
    var d' := Put(d, at, s);
    ExtentStart(g, limit, p);
    PutThenRead(d, at, s);
    PutElsewhere(d, at, s, TABLE_AT, SLOT_BYTES);
    forall q, a | (a == 0 || a == MIRROR) && Settled(d, g, addr, q, a)
      ensures Settled(d', g, addr, q, a)
    {
      SlotsBeforeData(q, a);
      PutElsewhere(d, at, s, SlotAt(q) + a, SLOT_BYTES);
    }
    forall q | Stored(d, g, q)
      ensures Stored(d', g, q)
    {
      if q != p && q in g.nodes && g.nodes[q].Data? && g.nodes[q].blocks > 0 {
        TwoExtents(g, limit, p, q);
        PutElsewhere(d, at, s, g.nodes[q].lba * BLOCK, g.nodes[q].blocks * BLOCK);
      }
    }
  }

  lemma TwoExtents(g: Graph, limit: nat, p: nat, q: nat)
    requires ExtentsApart(g.nodes, FIRST_DATA, limit) && p in g.nodes && q in g.nodes && p != q
    requires g.nodes[p].Data? && g.nodes[q].Data? && g.nodes[p].blocks > 0 && g.nodes[q].blocks > 0
    ensures (g.nodes[p].lba + g.nodes[p].blocks) * BLOCK <= g.nodes[q].lba * BLOCK
         || (g.nodes[q].lba + g.nodes[q].blocks) * BLOCK <= g.nodes[p].lba * BLOCK
  {
    ExtentBytesApart(g.nodes[p], g.nodes[q]);
  }

  lemma BlocksHold(n: nat)
    ensures n <= UnitsFor(n) * BLOCK && (n == 0 <==> UnitsFor(n) == 0)
  {
  }

  lemma PreservesTwice(d: Disk, d1: Disk, d2: Disk, g: Graph, addr: nat -> nat)
    requires Preserves(d, d1, g, addr) && Preserves(d1, d2, g, addr)
    ensures Preserves(d, d2, g, addr)
  {
    hide Settled, Stored, Read;
  }

  lemma PreservesSelf(d: Disk, g: Graph, addr: nat -> nat)
    ensures Preserves(d, d, g, addr)
  {
    hide Settled, Stored, Read;
  }

  /** The slots of the nodes ps are final; written with add == 0, in the mirror as well, and the
      files too. */
  ghost predicate Done(d: Disk, g: Graph, addr: nat -> nat, ps: set<nat>, add: nat) {
    && (forall p :: p in ps ==> Settled(d, g, addr, p, add))
    && (add == 0 ==> forall p :: p in ps ==> Settled(d, g, addr, p, MIRROR) && Stored(d, g, p))
  }

  lemma DoneStays(d: Disk, d': Disk, g: Graph, addr: nat -> nat, ps: set<nat>, add: nat)
    requires Done(d, g, addr, ps, add) && Preserves(d, d', g, addr) && (add == 0 || add == MIRROR)
    ensures Done(d', g, addr, ps, add)
  {
    hide Settled, Stored, Read;
  }

  lemma DoneTogether(d: Disk, g: Graph, addr: nat -> nat, ps: set<nat>, qs: set<nat>, add: nat)
    requires Done(d, g, addr, ps, add) && Done(d, g, addr, qs, add)
    ensures Done(d, g, addr, ps + qs, add)
  {
    hide Settled, Stored, Read;
  }

  class ImageFile {
    var disk: Disk

    constructor ()
      ensures disk == map[]
    {
      disk := map[];
    }

    /** The part of write_fs_h that writes one node's own slot. */
    method WriteSlot(g: Graph, addr: nat -> nat, p: nat, add: nat, ghost limit: nat)
      requires Laid(g, addr, limit) && p in g.nodes && (add == 0 || add == MIRROR)
      modifies this
      ensures Preserves(old(disk), disk, g, addr) && Settled(disk, g, addr, p, add)
    {
      hide Preserves, Settled, Sorted, Encode, Emitted, Put, Read;
      SlotWritten(disk, g, addr, limit, p, add);
      disk := Put(disk, SlotAt(p) + add, Encode(Emitted(g.nodes[p], addr)));
    }

    /** write_fs_h on a string node. */
    method WriteName(g: Graph, addr: nat -> nat, p: nat, add: nat, ghost s: Name, ghost limit: nat)
      requires Laid(g, addr, limit) && NameAt(g, p, s) && (add == 0 || add == MIRROR)
      modifies this
      ensures Preserves(old(disk), disk, g, addr) && Done(disk, g, addr, NamePtrs(g, p, s), add)
      decreases |s|, if add == 0 then 1 else 0
    {
      hide Preserves, Settled, Stored, Laid, Read, Done;
      ghost var d0 := disk;
      WriteSlot(g, addr, p, add, limit);
      ghost var d1, rest := disk, {};
      if g.nodes[p].next != 0 {
        WriteName(g, addr, g.nodes[p].next, add, s[CHUNK..], limit);
        PreservesTwice(d0, d1, disk, g, addr);
        rest := NamePtrs(g, g.nodes[p].next, s[CHUNK..]);
      } else {
        NoneDone(disk, g, addr, add);
      }
      SettledStays(d1, disk, g, addr, p, add);
      if add == 0 {
        ghost var d2 := disk;
        WriteName(g, addr, p, MIRROR, s, limit);
        PreservesTwice(d0, d2, disk, g, addr);
        SettledStays(d2, disk, g, addr, p, 0);
        DoneStays(d2, disk, g, addr, rest, 0);
        DoneHas(disk, g, addr, NamePtrs(g, p, s), MIRROR, p);
        NotAFile(disk, g, p);
      }
      DoneOne(disk, g, addr, p, add);
      DoneTogether(disk, g, addr, {p}, rest, add);
      assert NamePtrs(g, p, s) == {p} + rest;
    }

    /** write_fs_h on a data node; the builder makes lists of one. */
    method WriteData(g: Graph, addr: nat -> nat, p: nat, add: nat, ghost limit: nat)
      requires Laid(g, addr, limit) && p in g.nodes && g.nodes[p].Data? && g.nodes[p].next == 0
      requires add == 0 || add == MIRROR
      modifies this
      ensures Preserves(old(disk), disk, g, addr) && Settled(disk, g, addr, p, add)
      ensures add == 0 ==> Settled(disk, g, addr, p, MIRROR)
      decreases if add == 0 then 1 else 0
    {
      hide Preserves, Settled, Stored, Laid, Read;
      ghost var d0 := disk;
      WriteSlot(g, addr, p, add, limit);
      if add == 0 {
        ghost var d1 := disk;
        WriteData(g, addr, p, MIRROR, limit);
        PreservesTwice(d0, d1, disk, g, addr);
        SettledStays(d1, disk, g, addr, p, 0);
      }
    }

    /** write_file_data: the blocks of one file, the last one filled up with zeros. */
    method WriteFileData(g: Graph, addr: nat -> nat, p: nat, ghost limit: nat)
      requires Laid(g, addr, limit) && p in g.nodes && g.nodes[p].Data? && p in g.files
      modifies this
      ensures Preserves(old(disk), disk, g, addr) && Stored(disk, g, p)
    {
      hide Preserves, Settled, Laid, Read, Put;
      if g.nodes[p].blocks > 0 {
        FileWritten(disk, g, addr, limit, p);
        disk := Put(disk, g.nodes[p].lba * BLOCK, Padded(g.files[p], g.nodes[p].blocks * BLOCK));
      } else {
        PreservesSelf(disk, g, addr);
      }
    }

    /** write_fs_h on an entry: its slot, everything below and after it, and then, on the first
        pass, all of that again in the mirror. */
    method WriteTree(g: Graph, addr: nat -> nat, p: nat, add: nat, ghost t: Tree<nat>, ghost parent: nat,
                     ghost limit: nat)
      requires Laid(g, addr, limit) && Rep(g, t, parent) && !t.Nil? && p == t.at && (add == 0 || add == MIRROR)
      modifies this
      ensures Preserves(old(disk), disk, g, addr) && Done(disk, g, addr, Ptrs(g, t, parent), add)
      decreases t, if add == 0 then 1 else 0, 2
    {
      hide Preserves, Settled, Stored, Laid, Read, Done, Rep, Under, Ptrs;
      ghost var d0 := disk;
      EntryIsNode(g, t, parent);
      WriteSlot(g, addr, p, add, limit);
      ghost var d1 := disk;
      WriteUnder(g, addr, p, add, t, parent, limit);
      ghost var d2 := disk;
      PreservesTwice(d0, d1, d2, g, addr);
      SettledStays(d1, d2, g, addr, p, add);
      if add == 0 {
        WriteTree(g, addr, p, MIRROR, t, parent, limit);
        PreservesTwice(d0, d2, disk, g, addr);
        SettledStays(d2, disk, g, addr, p, 0);
        DoneStays(d2, disk, g, addr, Under(g, t, parent), 0);
        DoneHas(disk, g, addr, Ptrs(g, t, parent), MIRROR, p);
        NotAFile(disk, g, p);
      }
      DoneOne(disk, g, addr, p, add);
      DoneTogether(disk, g, addr, {p}, Under(g, t, parent), add);
    }

    method WriteUnder(g: Graph, addr: nat -> nat, p: nat, add: nat, ghost t: Tree<nat>, ghost parent: nat,
                      ghost limit: nat)
      requires Laid(g, addr, limit) && Rep(g, t, parent) && !t.Nil? && p == t.at && (add == 0 || add == MIRROR)
      modifies this
      ensures Preserves(old(disk), disk, g, addr) && Done(disk, g, addr, Under(g, t, parent), add)
      decreases t, if add == 0 then 1 else 0, 1
    {
      hide Preserves, Settled, Stored, Laid, Read, Done, NameAt, NamePtrs, Ptrs;
      ghost var d0 := disk;
      ghost var names := NamePtrs(g, g.nodes[p].name, t.name);
      WriteName(g, addr, g.nodes[p].name, add, t.name, limit);
      ghost var d1 := disk;
      if g.nodes[p].kind == NT_FILE {
        WriteFileRest(g, addr, p, add, t, parent, limit);
      } else if g.nodes[p].kind == NT_DIR {
        WriteList(g, addr, g.nodes[p].first, add, t.contents, p, limit);
        ghost var d2 := disk;
        WriteList(g, addr, g.nodes[p].next, add, t.next, parent, limit);
        PreservesTwice(d1, d2, disk, g, addr);
        DoneStays(d2, disk, g, addr, Ptrs(g, t.contents, p), add);
        DoneTogether(disk, g, addr, Ptrs(g, t.contents, p), Ptrs(g, t.next, parent), add);
      } else {
        WriteName(g, addr, g.nodes[p].first, add, t.dest, limit);
        ghost var d2 := disk;
        WriteList(g, addr, g.nodes[p].next, add, t.next, parent, limit);
        PreservesTwice(d1, d2, disk, g, addr);
        DoneStays(d2, disk, g, addr, NamePtrs(g, g.nodes[p].first, t.dest), add);
        DoneTogether(disk, g, addr, NamePtrs(g, g.nodes[p].first, t.dest), Ptrs(g, t.next, parent), add);
      }
      PreservesTwice(d0, d1, disk, g, addr);
      DoneStays(d1, disk, g, addr, names, add);
      DoneTogether(disk, g, addr, names, AfterName(g, t, parent), add);
    }

    /** A file's data node, the entries after it, and on the first pass its bytes. */
    method WriteFileRest(g: Graph, addr: nat -> nat, p: nat, add: nat, ghost t: Tree<nat>, ghost parent: nat,
                         ghost limit: nat)
      requires Laid(g, addr, limit) && Rep(g, t, parent) && t.File? && p == t.at && (add == 0 || add == MIRROR)
      modifies this
      ensures Preserves(old(disk), disk, g, addr) && Done(disk, g, addr, AfterName(g, t, parent), add)
      decreases t, if add == 0 then 1 else 0, 0
    {
      hide Preserves, Settled, Stored, Laid, Read, Done, NameAt, NamePtrs, Ptrs, UnitsFor, LastBytes;
      ghost var d1, data := disk, g.nodes[p].first;
      PreservesSelf(disk, g, addr);
      if g.nodes[p].first != 0 {
        WriteData(g, addr, g.nodes[p].first, add, limit);
      }
      ghost var d2 := disk;
      WriteList(g, addr, g.nodes[p].next, add, t.next, parent, limit);
      ghost var d3 := disk;
      PreservesTwice(d1, d2, d3, g, addr);
      if data != 0 {
        SettledStays(d2, d3, g, addr, data, add);
        if add == 0 { SettledStays(d2, d3, g, addr, data, MIRROR); }
      }
      if add == 0 && g.nodes[p].first != 0 {
        WriteFileData(g, addr, g.nodes[p].first, limit);
        PreservesTwice(d1, d3, disk, g, addr);
        SettledStays(d3, disk, g, addr, data, 0);
        SettledStays(d3, disk, g, addr, data, MIRROR);
        DoneStays(d3, disk, g, addr, Ptrs(g, t.next, parent), add);
      }
      if data != 0 {
        DoneOne(disk, g, addr, data, add);
      } else {
        NoneDone(disk, g, addr, add);
      }
      DoneTogether(disk, g, addr, if data != 0 then {data} else {}, Ptrs(g, t.next, parent), add);
    }

    method WriteList(g: Graph, addr: nat -> nat, p: nat, add: nat, ghost t: Tree<nat>, ghost parent: nat,
                     ghost limit: nat)
      requires Laid(g, addr, limit) && Rep(g, t, parent) && p == Head(t) && (add == 0 || add == MIRROR)
      modifies this
      ensures Preserves(old(disk), disk, g, addr) && Done(disk, g, addr, Ptrs(g, t, parent), add)
      decreases t, if add == 0 then 1 else 0, 3
    {
      hide Preserves, Settled, Stored, Laid, Read, NameAt, NamePtrs;
      if p != 0 {
        WriteTree(g, addr, p, add, t, parent, limit);
      } else {
        PreservesSelf(disk, g, addr);
      }
    }

    /** write_fs: the header, the two trees, and the node that marks unused space.  The image begins, at
        block 1, with what the boot loader looks for. */
    method WriteFs(b: Builder, addr: nat -> nat, ghost root: Tree<nat>, ghost predir: Tree<nat>)
      requires b.Valid() && b.nextEntry <= LAST_ENTRY + 1 && forall p :: addr(p) < U32_LIMIT
      requires Rep(b.G(), root, 0) && root.Dir? && root.at == b.root
      requires Rep(b.G(), predir, 0) && predir.Dir? && predir.at == b.predir
      requires b.unused in b.nodes && b.nodes[b.unused].Data? && b.nodes[b.unused].next == 0
      modifies this
      ensures Read(disk, TABLE_AT, SLOT_BYTES) == Header(b.root, b.predir, b.unused)
      ensures HeaderReads(disk, b.root, b.predir, b.unused)
      ensures Done(disk, b.G(), addr, Ptrs(b.G(), root, 0), 0)
      ensures Done(disk, b.G(), addr, Ptrs(b.G(), predir, 0), 0)
      ensures Settled(disk, b.G(), addr, b.unused, 0)
    {
      hide Preserves, Settled, Stored, Read, Done, Rep, Put, Ptrs, Header, Sorted, HeaderReads;
      var g := Graph(b.nodes, b.hostFiles);
      ghost var limit := b.nextBlock;
      SortedMore(g, b.nextEntry, LAST_ENTRY + 1, limit);
      disk := Put(disk, b.tableLba * BLOCK, Header(b.root, b.predir, b.unused));
      PutThenRead(old(disk), TABLE_AT, Header(b.root, b.predir, b.unused));
      ghost var d0 := disk;
      WriteTree(g, addr, b.predir, 0, predir, 0, limit);
      ghost var d1 := disk;
      WriteTree(g, addr, b.root, 0, root, 0, limit);
      ghost var d2 := disk;
      DoneStays(d1, d2, g, addr, Ptrs(g, predir, 0), 0);
      WriteData(g, addr, b.unused, 0, limit);
      DoneStays(d2, disk, g, addr, Ptrs(g, predir, 0), 0);
      DoneStays(d2, disk, g, addr, Ptrs(g, root, 0), 0);
      HeaderStays(d0, d1, d2, disk, g, addr);
      EntryIsNode(g, root, 0);
      EntryIsNode(g, predir, 0);
      NumbersFit(g, LAST_ENTRY + 1, limit);
      WrittenHeader(disk, b.root, b.predir, b.unused);
    }
  }

  const MARK := 0xF301

  /** The first slot of the table; the last field is the block of the mirror. */
  function Header(root: nat, predir: nat, unused: nat): (s: seq<Byte>)
    ensures |s| == SLOT_BYTES
  {
    ToLe(MARK, 4) + ToLe(root, 4) + ToLe(predir, 4) + ToLe(unused, 4) + ToLe(2, 8)
  }

  /** The image's first block: the mark, the three pointers, the block of the mirror. */
  ghost predicate HeaderReads(d: Disk, root: nat, predir: nat, unused: nat) {
    && Read(d, 0x1000, 4) == [0x01, 0xF3, 0x00, 0x00]
    && FromLe(Read(d, 0x1004, 4)) == root && FromLe(Read(d, 0x1008, 4)) == predir
    && FromLe(Read(d, 0x100C, 4)) == unused
    && Read(d, 0x1010, 8) == [2, 0, 0, 0, 0, 0, 0, 0]
  }

  lemma WrittenHeader(d: Disk, root: nat, predir: nat, unused: nat)
    requires Read(d, TABLE_AT, SLOT_BYTES) == Header(root, predir, unused)
    requires root < U32_LIMIT && predir < U32_LIMIT && unused < U32_LIMIT
    ensures HeaderReads(d, root, predir, unused)
  {
    hide Read, ToLe, FromLe;
    var s := Header(root, predir, unused);
    PartOfRead(d, TABLE_AT, SLOT_BYTES, 0, 4);
    PartOfRead(d, TABLE_AT, SLOT_BYTES, 4, 4);
    PartOfRead(d, TABLE_AT, SLOT_BYTES, 8, 4);
    PartOfRead(d, TABLE_AT, SLOT_BYTES, 12, 4);
    PartOfRead(d, TABLE_AT, SLOT_BYTES, 16, 8);
    Word(root, 4);
    Word(predir, 4);
    Word(unused, 4);
    LeastFirst(0x01, 0xF3, 0, 0);
    TwoInEight();
    assert s[0..4] == ToLe(MARK, 4) && s[4..8] == ToLe(root, 4) && s[8..12] == ToLe(predir, 4);
    assert s[12..16] == ToLe(unused, 4) && s[16..24] == ToLe(2, 8);
  }

  lemma NumbersFit(g: Graph, n: nat, limit: nat)
    requires Sorted(g, n, limit) && n <= U32_LIMIT
    ensures forall p :: p in g.nodes ==> p < U32_LIMIT
  {
    hide ExtentsApart, HasFile, Fits, Upward;
  }

  lemma TwoInEight()
    ensures ToLe(2, 8) == [2, 0, 0, 0, 0, 0, 0, 0]
  {
    assert ToLe(0, 7) == [0, 0, 0, 0, 0, 0, 0] by { assert ToLe(0, 4) == [0, 0, 0, 0]; }
  }

  lemma HeaderStays(d0: Disk, d1: Disk, d2: Disk, d3: Disk, g: Graph, addr: nat -> nat)
    requires Preserves(d0, d1, g, addr) && Preserves(d1, d2, g, addr) && Preserves(d2, d3, g, addr)
    ensures Read(d3, TABLE_AT, SLOT_BYTES) == Read(d0, TABLE_AT, SLOT_BYTES)
  {
    hide Settled, Stored, Read;
  }

  /** The nodes of a tree other than its first entry's own, and those that are not of its name. */
  ghost function AfterName(g: Graph, t: Tree<nat>, parent: nat): set<nat>
    requires Rep(g, t, parent) && !t.Nil?
  {
    match t
    case File(at, _, _, _, next) => (if g.nodes[at].first != 0 then {g.nodes[at].first} else {}) + Ptrs(g, next, parent)
    case Dir(at, _, _, contents, next) => Ptrs(g, contents, at) + Ptrs(g, next, parent)
    case Indirect(at, _, _, dest, next) => NamePtrs(g, g.nodes[at].first, dest) + Ptrs(g, next, parent)
  }

  ghost function Under(g: Graph, t: Tree<nat>, parent: nat): set<nat>
    requires Rep(g, t, parent) && !t.Nil?
  {
    NamePtrs(g, g.nodes[t.at].name, t.name) + AfterName(g, t, parent)
  }

  lemma EntryIsNode(g: Graph, t: Tree<nat>, parent: nat)
    requires Rep(g, t, parent) && !t.Nil?
    ensures t.at in g.nodes && !g.nodes[t.at].Data? && Ptrs(g, t, parent) == {t.at} + Under(g, t, parent)
  {
    hide NameAt, NamePtrs, UnitsFor, LastBytes;
  }

  lemma NoneDone(d: Disk, g: Graph, addr: nat -> nat, add: nat)
    ensures Done(d, g, addr, {}, add)
  {
  }

  lemma DoneHas(d: Disk, g: Graph, addr: nat -> nat, ps: set<nat>, add: nat, p: nat)
    requires Done(d, g, addr, ps, add) && p in ps
    ensures Settled(d, g, addr, p, add)
  {
    hide Settled, Stored, Read;
  }

  lemma NotAFile(d: Disk, g: Graph, p: nat)
    requires p in g.nodes && !g.nodes[p].Data?
    ensures Stored(d, g, p)
  {
    hide Read;
  }

  lemma DoneOne(d: Disk, g: Graph, addr: nat -> nat, p: nat, add: nat)
    requires Settled(d, g, addr, p, add) && (add == 0 ==> Settled(d, g, addr, p, MIRROR) && Stored(d, g, p))
    ensures Done(d, g, addr, {p}, add)
  {
    hide Settled, Stored, Read;
  }

  lemma SettledStays(d: Disk, d': Disk, g: Graph, addr: nat -> nat, p: nat, add: nat)
    requires Settled(d, g, addr, p, add) && (d == d' || Preserves(d, d', g, addr)) && (add == 0 || add == MIRROR)
    ensures Settled(d', g, addr, p, add)
  {
    hide Settled, Stored, Read;
  }
}
