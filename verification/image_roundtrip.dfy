/** From two parsed trees to an image and back. */
module ImageRoundTrip {
  import opened Bytes
  import opened Options
  import opened ByteStores
  import opened ImageFormat
  import opened ImageBuilder
  import opened ImageWriter
  import opened Volumes

  /** A top-level directory that fits the host's limits. */
  ghost predicate TopLevel(t: Tree<()>, name: Name) {
    t.Dir? && t.name == name && Writable(t)
  }

  /** The kernel finds this tree at these places in the image.  Its files are filled up with zeros, no
      node is locked, and pointers go up. */
  ghost predicate Held(d: Disk, placed: Tree<nat>) {
    var table := Read(d, TABLE_AT, BLOCK);
    var g := GraphOf(table, d);
    Rep(g, placed, 0) && ZeroFilled(d, g, Ptrs(g, placed, 0)) && Tidy(table, d, Ptrs(g, placed, 0))
  }

  /** The image says exactly this tree, from this root. */
  ghost predicate Holds(d: Disk, at: nat, t: Tree<()>) {
    exists placed: Tree<nat> :: Held(d, placed) && Erase(placed) == t && Head(placed) == at
  }

  /** The image holds the tree if no name needs a second string node; and only then, when none of the
      host's addresses is a node number. */
  ghost predicate HoldsIfShort(d: Disk, at: nat, t: Tree<()>, addr: nat -> nat) {
    && (ShortNames(t) ==> Holds(d, at, t))
    && ((forall p :: addr(p) > LAST_ENTRY) ==> Holds(d, at, t) ==> ShortNames(t))
  }

  /** The builder's main program, the two top-level directories coming in either order.  If at most
      169 nodes are needed, the kernel's view of the image is the two trees, if and only if their names
      are short. */
  method BuildImage(root: Tree<()>, predir: Tree<()>, rootFirst: bool, addr: nat -> nat) returns (f: ImageFile)
    requires TopLevel(root, ROOT_NAME) && TopLevel(predir, PREDIR_NAME) && forall p :: addr(p) < U32_LIMIT
    requires 1 + NodesIn(root) + NodesIn(predir) <= 169
    requires FIRST_DATA + BlocksIn(root) + BlocksIn(predir) < 0x1_0000_0000_0000_0000
    ensures HoldsIfShort(f.disk, RootOf(Read(f.disk, TABLE_AT, BLOCK)), root, addr)
    ensures HoldsIfShort(f.disk, PredirOf(Read(f.disk, TABLE_AT, BLOCK)), predir, addr)
    ensures HeaderReads(f.disk, RootOf(Read(f.disk, TABLE_AT, BLOCK)), PredirOf(Read(f.disk, TABLE_AT, BLOCK)), 1)
  {
    hide HeaderReads, RootOf, PredirOf, Read, Rep, Ptrs, Sorted, Settled, Stored, Place, NodesIn, BlocksIn, Header,
      Grew,
      Writable, ShortNames, Done,
      HoldsIfShort, Erase;
    var b := new Builder();
    var t, u := if rootFirst then root else predir, if rootFirst then predir else root;
    PlaceKeepsTree(t, 2);
    PlaceKeepsTree(u, Place(t, 2).1);
    PlaceCounts(t, 2);
    PlaceCounts(u, Place(t, 2).1);
    var ok := b.AddTop(t);
    ghost var g1, n := b.G(), b.nextEntry;
    ok := b.AddTop(u);
    RepStays(g1, b.G(), n, b.nextEntry, Place(t, 2).0, 0);
    ghost var rt := if rootFirst then Place(t, 2).0 else Place(u, n).0;
    ghost var pd := if rootFirst then Place(u, n).0 else Place(t, 2).0;
    PlacedDir(t, 2);
    PlacedDir(u, n);
    UnusedStays(g1, b.G(), n, b.nextEntry);
    f := new ImageFile();
    f.WriteFs(b, addr, rt, pd);
    SortedMore(b.G(), b.nextEntry, LAST_ENTRY + 1, b.nextBlock);
    HeaderReadsBack(f.disk, b.root, b.predir, b.unused);
    TreeHeld(f.disk, b.G(), addr, b.nextBlock, root, if rootFirst then 2 else n);
    TreeHeld(f.disk, b.G(), addr, b.nextBlock, predir, if rootFirst then n else 2);
  }

  lemma PlacedDir(t: Tree<()>, n: nat)
    requires t.Dir?
    ensures Place(t, n).0.Dir? && Place(t, n).0.at == n
  {
  }

  lemma TreeHeld(d: Disk, g: Graph, addr: nat -> nat, limit: nat, t: Tree<()>, n: nat)
    requires Laid(g, addr, limit) && !t.Nil?
    requires Rep(g, Place(t, n).0, 0) && Done(d, g, addr, Ptrs(g, Place(t, n).0, 0), 0)
    ensures HoldsIfShort(d, n, t, addr)
  {
    hide Read, Rep, Ptrs, Place, Done, ShortNames, Erase, ZeroFilled, Tidy, GraphOf, Laid;
    var placed := Place(t, n).0;
    PlaceKeepsTree(t, n);
    PlacedShort(placed);
    assert Head(placed) == n;
    if ShortNames(t) {
      ShortIsFaithful(g, addr, placed, 0);
      WrittenIsRead(d, g, addr, limit, placed, 0);
      assert Held(d, placed);
    }
    if Holds(d, n, t) && forall p :: addr(p) > LAST_ENTRY {
      var u: Tree<nat> :| Held(d, u) && Erase(u) == t && Head(u) == n;
      ReadBackIsShort(d, g, addr, limit, placed, u, 0);
    }
  }

  /** A root with one file in it that the host does not have. */
  function OneFile(name: Name): Tree<()> {
    Dir((), ROOT_NAME, 0, File((), name, 0, None, Nil), Nil)
  }

  const EMPTY_PREDIR: Tree<()> := Dir((), PREDIR_NAME, 0, Nil, Nil)

  /** For instance: with a file of a 19-character name below the root, and host addresses as they are,
      the image does not hold the tree. */
  method LongNameExample(name: Name, addr: nat -> nat) returns (f: ImageFile)
    requires |name| == 19 && forall p :: LAST_ENTRY < addr(p) < U32_LIMIT
    ensures !Holds(f.disk, RootOf(Read(f.disk, TABLE_AT, BLOCK)), OneFile(name))
  {
    hide Read, Holds, RootOf, PredirOf, Place, OneFile, BlocksIn, ShortNames;
    OneFileFits(name);
    f := BuildImage(OneFile(name), EMPTY_PREDIR, true, addr);
  }

  lemma OneFileFits(name: Name)
    requires |name| == 19
    ensures TopLevel(OneFile(name), ROOT_NAME) && !ShortNames(OneFile(name)) && BlocksIn(OneFile(name)) == 0
    ensures TopLevel(EMPTY_PREDIR, PREDIR_NAME) && BlocksIn(EMPTY_PREDIR) == 0
    ensures NodesIn(OneFile(name)) == 6 && NodesIn(EMPTY_PREDIR) == 2
  {
    hide NameNodes, NodesIn;
    var file := OneFile(name).contents;
    assert Writable(file) && !ShortNames(file) && BlocksIn(file) == 0;
    FewNodes(name);
  }

  lemma FewNodes(name: Name)
    requires |name| == 19
    ensures NodesIn(OneFile(name)) == 6 && NodesIn(EMPTY_PREDIR) == 2
  {
    assert NodesIn(OneFile(name).contents) == 4;
  }
}
