/** The kernel's side of an f301 image: resolving node pointers and path names, locking, reading. */
module Volumes {
  import opened Bytes
  import opened Options
  import opened ByteStores
  import opened ImageFormat
  import opened ImageBuilder
  import opened ImageWriter

  type Table = s: seq<Byte> | |s| == BLOCK witness Zeros(BLOCK)

  function SlotOf(table: Table, p: nat): (s: seq<Byte>)
    requires p <= LAST_ENTRY
    ensures |s| == SLOT_BYTES
  {
    table[SLOT_BYTES * p..SLOT_BYTES * p + SLOT_BYTES]
  }

  predicate Resolvable(p: nat) {
    0 < p <= LAST_ENTRY
  }

  /** Bit 7 of a node's first byte. */
  const LOCK := 128

  predicate Unlocked(table: Table, p: nat) {
    Resolvable(p) && table[SLOT_BYTES * p] < LOCK
  }

  /** fs_get_size on a list of one extent, in 32-bit arithmetic. */
  function ExtentSize(x: Node): nat
    requires x.Data?
  {
    ((x.blocks - 1) * BLOCK + x.last) % U32_LIMIT
  }

  /** The kernel's view of an image: its nodes, and the bytes of every extent. */
  ghost function NodesOf(table: Table): map<nat, Node> {
    map p: nat | p <= LAST_ENTRY && Resolvable(p) :: Decode(SlotOf(table, p))
  }

  ghost function FilesOn(nodes: map<nat, Node>, disk: Disk): map<nat, seq<Byte>> {
    map p | p in nodes && nodes[p].Data? :: Read(disk, nodes[p].lba * BLOCK, ExtentSize(nodes[p]))
  }

  ghost function GraphOf(table: Table, disk: Disk): Graph {
    Graph(NodesOf(table), FilesOn(NodesOf(table), disk))
  }

  // ----- the image that the builder writes -----

  /** fs_get_size undoes the split into blocks, for every int length, 0 included. */
  lemma SizeExact(n: nat, x: Node)
    requires n <= INT_MAX && x.Data? && x.blocks == UnitsFor(n) && x.last == LastBytes(n)
    ensures ExtentSize(x) == n && UnitsFor(ExtentSize(x)) == x.blocks
  {
    if n % BLOCK != 0 {
      assert (x.blocks - 1) * BLOCK + x.last == n;
    } else {
      assert x.blocks * BLOCK == n;
      assert (x.blocks - 1) * BLOCK + x.last == n;
    }
  }

  /** The blocks of every file among ps hold its bytes and then zeros. */
  ghost predicate ZeroFilled(d: Disk, h: Graph, ps: set<nat>) {
    forall p :: p in ps && p in h.nodes && h.nodes[p].Data? && h.nodes[p].blocks > 0 ==>
      && p in h.files
      && Read(d, h.nodes[p].lba * BLOCK, h.nodes[p].blocks * BLOCK) == Padded(h.files[p], h.nodes[p].blocks * BLOCK)
  }

  /** What is written is the node itself, not a host address in its place. */
  ghost predicate Faithful(g: Graph, addr: nat -> nat, ps: set<nat>) {
    forall p :: p in ps && p in g.nodes ==> Emitted(g.nodes[p], addr) == g.nodes[p]
  }

  lemma NodeReadsBack(d: Disk, g: Graph, addr: nat -> nat, p: nat)
    requires Settled(d, g, addr, p, 0) && Emitted(g.nodes[p], addr) == g.nodes[p] && Resolvable(p)
    ensures Decode(SlotOf(Read(d, TABLE_AT, BLOCK), p)) == g.nodes[p]
    ensures Unlocked(Read(d, TABLE_AT, BLOCK), p)
  {
    hide Read, Encode, Decode, Emitted, Fits;
    PartOfRead(d, TABLE_AT, BLOCK, SLOT_BYTES * p, SLOT_BYTES);
    SlotRoundTrip(g.nodes[p]);
    assert SlotOf(Read(d, TABLE_AT, BLOCK), p)[0] == Encode(g.nodes[p])[0];
    WrittenUnlocked(g.nodes[p]);
  }

  lemma WrittenUnlocked(x: Node)
    requires Fits(x)
    ensures Encode(x)[0] < LOCK
  {
    hide ToLe;
  }

  lemma PaddedPrefix(b: seq<Byte>, n: nat)
    requires |b| <= n
    ensures |Padded(b, n)| == n && Padded(b, n)[..|b|] == b
  {
  }

  lemma FileReadsBack(d: Disk, g: Graph, p: nat)
    requires p in g.nodes && g.nodes[p].Data? && p in g.files && HasFile(g, p) && Stored(d, g, p)
    ensures Read(d, g.nodes[p].lba * BLOCK, ExtentSize(g.nodes[p])) == g.files[p]
  {
    hide Read, UnitsFor, LastBytes, ExtentSize, Padded;
    var x, b := g.nodes[p], g.files[p];
    SizeExact(|b|, x);
    BlocksHold(|b|);
    if x.blocks > 0 {
      PaddedPrefix(b, x.blocks * BLOCK);
      PartOfRead(d, x.lba * BLOCK, x.blocks * BLOCK, 0, |b|);
    }
  }

  /** The image decodes to the graph that was written. */
  lemma WrittenIsRead(d: Disk, g: Graph, addr: nat -> nat, limit: nat, t: Tree<nat>, parent: nat)
    requires Laid(g, addr, limit) && Rep(g, t, parent) && Done(d, g, addr, Ptrs(g, t, parent), 0)
    requires Faithful(g, addr, Ptrs(g, t, parent))
    ensures Rep(GraphOf(Read(d, TABLE_AT, BLOCK), d), t, parent)
    ensures ZeroFilled(d, GraphOf(Read(d, TABLE_AT, BLOCK), d), Ptrs(GraphOf(Read(d, TABLE_AT, BLOCK), d), t, parent))
    ensures Tidy(Read(d, TABLE_AT, BLOCK), d, Ptrs(GraphOf(Read(d, TABLE_AT, BLOCK), d), t, parent))
  {
    hide Padded, Read, Rep, Ptrs, Settled, Stored, Decode, Emitted, ExtentSize, SlotOf, Fits, HasFile, ExtentsApart,
      Upward, Unlocked;
    PtrsAreNodes(g, t, parent);
    var h := GraphOf(Read(d, TABLE_AT, BLOCK), d);
    forall p | p in Ptrs(g, t, parent)
      ensures AgreeAt(g, h, p) && Unlocked(Read(d, TABLE_AT, BLOCK), p) && Upward(p, g.nodes[p])
    {
      NodeReadsBack(d, g, addr, p);
      if g.nodes[p].Data? && p in g.files { FileReadsBack(d, g, p); }
    }
    RepDependsOn(g, h, t, parent);
    forall p | p in Ptrs(h, t, parent) && p in h.nodes && h.nodes[p].Data? && h.nodes[p].blocks > 0
      ensures p in h.files && Read(d, h.nodes[p].lba * BLOCK, h.nodes[p].blocks * BLOCK) == Padded(h.files[p],
              h.nodes[p].blocks * BLOCK)
    {
      assert AgreeAt(g, h, p);
      StoredMeans(d, g, p);
    }
    assert h.nodes == NodesOf(Read(d, TABLE_AT, BLOCK));
    forall p | p in Ptrs(h, t, parent)
      ensures p in h.nodes && Upward(p, h.nodes[p])
    {
      assert AgreeAt(g, h, p);
    }
  }

  /** None of the nodes ps is locked, and their pointers go up. */
  ghost predicate Tidy(table: Table, disk: Disk, ps: set<nat>) {
    forall p :: p in ps ==> Unlocked(table, p) && p in NodesOf(table) && Upward(p, NodesOf(table)[p])
  }

  lemma StoredMeans(d: Disk, g: Graph, p: nat)
    requires Stored(d, g, p) && p in g.nodes && g.nodes[p].Data? && g.nodes[p].blocks > 0
    ensures p in g.files
    ensures Read(d, g.nodes[p].lba * BLOCK, g.nodes[p].blocks * BLOCK) == Padded(g.files[p], g.nodes[p].blocks * BLOCK)
  {
    hide Read, Padded;
  }

  /** No name in the tree needs a second string node. */
  ghost predicate ShortNames<L>(t: Tree<L>) {
    match t
    case Nil => true
    case File(_, name, _, _, next) => |name| <= CHUNK && ShortNames(next)
    case Dir(_, name, _, contents, next) => |name| <= CHUNK && ShortNames(contents) && ShortNames(next)
    case Indirect(_, name, _, dest, next) => |name| <= CHUNK && |dest| <= CHUNK && ShortNames(next)
  }

  lemma {:induction false} ShortIsFaithful(g: Graph, addr: nat -> nat, t: Tree<nat>, parent: nat)
    requires Rep(g, t, parent) && ShortNames(t)
    ensures Faithful(g, addr, Ptrs(g, t, parent))
  {
    hide UnitsFor, LastBytes;
    match t {
      case Nil => {}
      case File(_, _, _, _, next) => { ShortIsFaithful(g, addr, next, parent); }
      case Dir(at, _, _, contents, next) => {
        ShortIsFaithful(g, addr, contents, at);
        ShortIsFaithful(g, addr, next, parent);
      }
      case Indirect(_, _, _, _, next) => { ShortIsFaithful(g, addr, next, parent); }
    }
  }

  /** Were node numbers written for continuations too, names of any length would read back. */
  lemma NumbersAreFaithful(g: Graph, addr: nat -> nat, ps: set<nat>)
    requires forall p :: addr(p) == p
    ensures Faithful(g, addr, ps)
  {
  }

  /** A name of more than 18 characters whose continuation has an address that is no entry of the
      table does not read back, as any name at all. */
  lemma LongNameIsLost(d: Disk, disk: Disk, g: Graph, addr: nat -> nat, p: nat, s: Name, r: Name)
    requires NameAt(g, p, s) && |s| > CHUNK && Settled(d, g, addr, p, 0) && Resolvable(p)
    requires addr(g.nodes[p].next) > LAST_ENTRY
    ensures !NameAt(GraphOf(Read(d, TABLE_AT, BLOCK), disk), p, r)
  {
    hide Read, Encode, Decode, Fits, ExtentSize;
    var x := Emitted(g.nodes[p], addr);
    PartOfRead(d, TABLE_AT, BLOCK, SLOT_BYTES * p, SLOT_BYTES);
    SlotRoundTrip(x);
    assert x.next == addr(g.nodes[p].next) && x.next != 0;
    var h := GraphOf(Read(d, TABLE_AT, BLOCK), disk);
    assert h.nodes[p] == x && x.next !in h.nodes;
  }

  /** If the kernel, wherever its tree's nodes are, finds the same tree in the image, no name needed a
      second string node, given that no host address is a node number. */
  lemma {:induction false} ReadBackIsShort(d: Disk, g: Graph, addr: nat -> nat, limit: nat, t: Tree<nat>,
                                           u: Tree<nat>, parent: nat)
    requires Laid(g, addr, limit) && Rep(g, t, parent) && Done(d, g, addr, Ptrs(g, t, parent), 0)
    requires forall p :: addr(p) > LAST_ENTRY
    requires Rep(GraphOf(Read(d, TABLE_AT, BLOCK), d), u, parent) && Head(u) == Head(t) && Erase(u) == Erase(t)
    ensures ShortNames(t)
    decreases t
  {
    hide Read, Settled, Stored, NameAt, BodyAt, NamePtrs, Decode, SlotOf, ExtentSize, Fits, HasFile, ExtentsApart,
      GraphOf, Upward;
    var h := GraphOf(Read(d, TABLE_AT, BLOCK), d);
    if !t.Nil? {
      assert forall q :: q in g.nodes ==> Resolvable(q);
      EntryReadsBack(d, g, addr, limit, t, parent);
      NameIsShort(d, g, addr, g.nodes[t.at].name, t.name, u.name);
      match t {
        case File(_, _, _, _, next) => { ReadBackIsShort(d, g, addr, limit, next, u.next, parent); }
        case Dir(at, _, _, contents, next) => {
          ReadBackIsShort(d, g, addr, limit, contents, u.contents, at);
          ReadBackIsShort(d, g, addr, limit, next, u.next, parent);
        }
        case Indirect(at, _, _, dest, next) => {
          NameIsShort(d, g, addr, g.nodes[at].first, dest, u.dest);
          ReadBackIsShort(d, g, addr, limit, next, u.next, parent);
        }
      }
    }
  }

  lemma EntryReadsBack(d: Disk, g: Graph, addr: nat -> nat, limit: nat, t: Tree<nat>, parent: nat)
    requires Laid(g, addr, limit) && Rep(g, t, parent) && !t.Nil? && Done(d, g, addr, Ptrs(g, t, parent), 0)
    ensures t.at in GraphOf(Read(d, TABLE_AT, BLOCK), d).nodes
    ensures GraphOf(Read(d, TABLE_AT, BLOCK), d).nodes[t.at] == g.nodes[t.at]
  {
    hide Read, Settled, Stored, NameAt, BodyAt, NamePtrs, Decode, SlotOf, ExtentSize, Fits, HasFile, ExtentsApart;
    assert t.at in Ptrs(g, t, parent);
    NodeReadsBack(d, g, addr, t.at);
  }

  lemma NameIsShort(d: Disk, g: Graph, addr: nat -> nat, p: nat, s: Name, r: Name)
    requires NameAt(g, p, s) && (forall q :: q in NamePtrs(g, p, s) ==> Settled(d, g, addr, q, 0))
    requires (forall q :: q in g.nodes ==> Resolvable(q)) && (forall q :: addr(q) > LAST_ENTRY)
    requires NameAt(GraphOf(Read(d, TABLE_AT, BLOCK), d), p, r)
    ensures |s| <= CHUNK
  {
    hide Read, Settled, Decode, SlotOf, GraphOf;
    assert p in g.nodes;
    if |s| > CHUNK { LongNameIsLost(d, d, g, addr, p, s, r); }
  }

  lemma {:induction false} PlacedShort(t: Tree<nat>)
    ensures ShortNames(Erase(t)) <==> ShortNames(t)
  {
    match t {
      case Nil => {}
      case File(_, _, _, _, next) => { PlacedShort(next); }
      case Dir(_, _, _, contents, next) => {
        PlacedShort(contents);
        PlacedShort(next);
      }
      case Indirect(_, _, _, _, next) => { PlacedShort(next); }
    }
  }

  function RootOf(table: Table): nat {
    FromLe(table[4..8])
  }

  function PredirOf(table: Table): nat {
    FromLe(table[8..12])
  }

  lemma HeaderReadsBack(d: Disk, root: nat, predir: nat, unused: nat)
    requires Read(d, TABLE_AT, SLOT_BYTES) == Header(root, predir, unused)
    requires root < U32_LIMIT && predir < U32_LIMIT
    ensures RootOf(Read(d, TABLE_AT, BLOCK)) == root && PredirOf(Read(d, TABLE_AT, BLOCK)) == predir
  {
    hide Read, ToLe, FromLe;
    var s, t := Header(root, predir, unused), Read(d, TABLE_AT, BLOCK);
    PartOfRead(d, TABLE_AT, BLOCK, 0, SLOT_BYTES);
    Word(root, 4);
    Word(predir, 4);
    assert t[4..8] == s[4..8] == ToLe(root, 4);
    assert t[8..12] == s[8..12] == ToLe(predir, 4);
  }
}
