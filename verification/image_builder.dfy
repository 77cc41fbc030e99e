/** The image builder's first half: numbering nodes, allocating extents, building the node graph. */
module ImageBuilder {
  import opened Bytes
  import opened Options
  import opened ImageFormat

  /** How many string nodes a name takes. */
  function Chunks(n: nat): (k: nat)
    ensures k > 0
  {
    if n > CHUNK then 1 + Chunks(n - CHUNK) else 1
  }

  /** The order in which nodes are numbered: an entry before its name, a directory's contents before
      its later siblings, a file's later siblings before its data node.  The result is the tree with
      its numbers, and the next free number. */
  function Place(t: Tree<()>, n: nat): (Tree<nat>, nat) {
    match t
    case Nil => (Nil, n)
    case File(_, name, owner, body, next) =>
      var (x, k) := Place(next, n + 1 + Chunks(|name|));
      (File(n, name, owner, body, x), k + 1)
    case Dir(_, name, owner, contents, next) =>
      var (c, k) := Place(contents, n + 1 + Chunks(|name|));
      var (x, l) := Place(next, k);
      (Dir(n, name, owner, c, x), l)
    case Indirect(_, name, owner, dest, next) =>
      var (x, k) := Place(next, n + 1 + Chunks(|name|) + Chunks(|dest|));
      (Indirect(n, name, owner, dest, x), k)
  }

  /** Numbering changes nothing but the numbers, and numbers grow. */
  lemma {:induction false} PlaceKeepsTree(t: Tree<()>, n: nat)
    ensures Erase(Place(t, n).0) == t && Place(t, n).1 >= n
    ensures !t.Nil? ==> !Place(t, n).0.Nil? && Place(t, n).0.at == n && Place(t, n).1 > n
  {
    match t {
      case Nil => {}
      case File(at, name, _, _, next) => {
        PlaceKeepsTree(next, n + 1 + Chunks(|name|));
        assert at == ();
      }
      case Dir(at, name, _, contents, next) => {
        PlaceKeepsTree(contents, n + 1 + Chunks(|name|));
        PlaceKeepsTree(next, Place(contents, n + 1 + Chunks(|name|)).1);
        assert at == ();
      }
      case Indirect(at, name, _, dest, next) => {
        PlaceKeepsTree(next, n + 1 + Chunks(|name|) + Chunks(|dest|));
        assert at == ();
      }
    }
  }

  /** Nodes of a name: one for every 18 characters begun, and one for the empty name. */
  function NameNodes(n: nat): nat {
    if n == 0 then 1 else (n + 17) / 18
  }

  /** Nodes of a tree: an entry's own, its name's, a data node for a file, the destination's for an indirect. */
  function NodesIn(t: Tree<()>): nat {
    match t
    case Nil => 0
    case File(_, name, _, _, next) => 2 + NameNodes(|name|) + NodesIn(next)
    case Dir(_, name, _, contents, next) => 1 + NameNodes(|name|) + NodesIn(contents) + NodesIn(next)
    case Indirect(_, name, _, dest, next) => 1 + NameNodes(|name|) + NameNodes(|dest|) + NodesIn(next)
  }

  lemma {:induction false} ChunksAre(n: nat)
    ensures Chunks(n) == NameNodes(n)
  {
    if n > CHUNK { ChunksAre(n - CHUNK); }
  }

  /** Numbering uses up exactly as many numbers as the tree needs nodes. */
  lemma {:induction false} PlaceCounts(t: Tree<()>, n: nat)
    ensures Place(t, n).1 == n + NodesIn(t)
  {
    hide Chunks, NameNodes;
    match t {
      case Nil => {}
      case File(_, name, _, _, next) => {
        ChunksAre(|name|);
        PlaceCounts(next, n + 1 + Chunks(|name|));
      }
      case Dir(_, name, _, contents, next) => {
        ChunksAre(|name|);
        PlaceCounts(contents, n + 1 + Chunks(|name|));
        PlaceCounts(next, Place(contents, n + 1 + Chunks(|name|)).1);
      }
      case Indirect(_, name, _, dest, next) => {
        ChunksAre(|name|);
        ChunksAre(|dest|);
        PlaceCounts(next, n + 1 + Chunks(|name|) + Chunks(|dest|));
      }
    }
  }

  /** Every pointer of a node but its parent's is null or goes to a larger number. */
  ghost predicate Upward(p: nat, x: Node) {
    match x
    case Entry(_, _, _, name, first, next, _) =>
      (name == 0 || p < name) && (first == 0 || p < first) && (next == 0 || p < next)
    case Data(_, _, next, _) => next == 0 || p < next
    case Str(_, _, next) => next == 0 || p < next
    case Free => true
  }

  /** Node q is where a pointer of x leads, its parent's aside. */
  ghost predicate PointsTo(x: Node, q: nat) {
    q != 0 &&
    match x
    case Entry(_, _, _, name, first, next, _) => q == name || q == first || q == next
    case Data(_, _, next, _) => q == next
    case Str(_, _, next) => q == next
    case Free => false
  }

  /** Nodes reached one from another. */
  ghost predicate Chain(nodes: map<nat, Node>, ps: seq<nat>) {
    && (forall i :: 0 <= i < |ps| ==> ps[i] in nodes)
    && forall i :: 0 <= i < |ps| - 1 ==> PointsTo(nodes[ps[i]], ps[i + 1])
  }

  /** So following pointers ends: no chain is longer than there are numbers left. */
  lemma {:induction false} ChainsEnd(nodes: map<nat, Node>, n: nat, ps: seq<nat>)
    requires forall p :: p in nodes ==> p < n && Upward(p, nodes[p])
    requires ps != [] && Chain(nodes, ps)
    ensures ps[0] + |ps| <= n
    decreases |ps|
  {
    if |ps| > 1 {
      var rest := ps[1..];
      assert forall i :: 0 <= i < |rest| ==> rest[i] == ps[i + 1];
      ChainsEnd(nodes, n, rest);
      assert PointsTo(nodes[ps[0]], ps[1]) && Upward(ps[0], nodes[ps[0]]);
    }
  }

  /** The host's limits: file sizes and owners fit an int. */
  ghost predicate Writable(t: Tree<()>) {
    match t
    case Nil => true
    case File(_, _, owner, body, next) =>
      owner < U32_LIMIT && (body.Some? ==> |body.value| <= INT_MAX) && Writable(next)
    case Dir(_, _, owner, contents, next) => owner < U32_LIMIT && Writable(contents) && Writable(next)
    case Indirect(_, _, owner, _, next) => owner < U32_LIMIT && Writable(next)
  }

  /** Blocks that the files of a tree take. */
  function BlocksIn(t: Tree<()>): nat {
    match t
    case Nil => 0
    case File(_, _, _, body, next) => (if body.Some? then UnitsFor(|body.value|) else 0) + BlocksIn(next)
    case Dir(_, _, _, contents, next) => BlocksIn(contents) + BlocksIn(next)
    case Indirect(_, _, _, _, next) => BlocksIn(next)
  }

  // ----- extents -----

  ghost predicate Apart(a: Node, b: Node)
    requires a.Data? && b.Data?
  {
    a.blocks == 0 || b.blocks == 0 || a.lba + a.blocks <= b.lba || b.lba + b.blocks <= a.lba
  }

  /** The extent lies in blocks first .. limit-1. */
  ghost predicate Within(a: Node, first: nat, limit: nat) {
    a.Data? && a.blocks > 0 ==> first <= a.lba && a.lba + a.blocks <= limit
  }

  /** Every data node's extent lies in blocks first .. limit-1, and no two overlap. */
  ghost predicate ExtentsApart(nodes: map<nat, Node>, first: nat, limit: nat) {
    && (forall p :: p in nodes ==> Within(nodes[p], first, limit))
    && (forall p, q :: p in nodes && q in nodes && p != q && nodes[p].Data? && nodes[q].Data? ==>
       Apart(nodes[p], nodes[q]))
  }

  /** A data node's extent holds what its file says. */
  ghost predicate HasFile(g: Graph, p: nat)
    requires p in g.nodes
  {
    g.nodes[p].Data? ==>
      && (g.nodes[p].blocks > 0 ==> p in g.files)
      && (p in g.files ==>
           && g.nodes[p].blocks == UnitsFor(|g.files[p]|) && g.nodes[p].last == LastBytes(|g.files[p]|)
           && |g.files[p]| <= INT_MAX)
  }

  /** The graph only grew, by nodes numbered m .. n-1. */
  ghost predicate Grew(g: Graph, h: Graph, m: nat, n: nat) {
    && (forall p :: p in g.nodes ==> AgreeAt(g, h, p))
    && (forall p :: p in h.nodes && p !in g.nodes ==> m <= p < n)
  }

  lemma GrewTwice(a: Graph, b: Graph, c: Graph, m: nat, n: nat, k: nat)
    requires Grew(a, b, m, n) && Grew(b, c, n, k) && m <= n <= k
    ensures Grew(a, c, m, k)
  {
    forall p | p in a.nodes
      ensures AgreeAt(a, c, p)
    {
      assert AgreeAt(a, b, p) && AgreeAt(b, c, p);
    }
  }

  lemma NameStays(g: Graph, h: Graph, m: nat, n: nat, p: nat, s: Name)
    requires Grew(g, h, m, n) && NameAt(g, p, s)
    ensures NameAt(h, p, s)
  {
    hide NameAt, AgreeAt;
    NamePtrsAreNodes(g, p, s);
    NameDependsOn(g, h, p, s);
  }

  lemma RepStays(g: Graph, h: Graph, m: nat, n: nat, t: Tree<nat>, parent: nat)
    requires Grew(g, h, m, n) && Rep(g, t, parent)
    ensures Rep(h, t, parent)
  {
    hide Rep, AgreeAt, Ptrs;
    PtrsAreNodes(g, t, parent);
    RepDependsOn(g, h, t, parent);
  }

  const TABLE_BLOCKS := 2
  /** The first block after the node table. */
  const FIRST_DATA := 3

  /** A graph whose numbers are below n and whose extents lie below block limit; its pointers go up. */
  ghost predicate Sorted(g: Graph, n: nat, limit: nat) {
    && (forall p :: p in g.nodes ==> 0 < p < n && Fits(g.nodes[p]) && HasFile(g, p) && Upward(p, g.nodes[p]))
    && ExtentsApart(g.nodes, FIRST_DATA, limit)
  }

  /** One more node, which is no data node. */
  lemma PutNode(g: Graph, n: nat, limit: nat, p: nat, x: Node)
    requires Sorted(g, n, limit) && 0 < p < n && p !in g.nodes && Fits(x) && !x.Data? && Upward(p, x)
    ensures var h := Graph(g.nodes[p := x], g.files); Sorted(h, n, limit) && Grew(g, h, p, p + 1)
  {
    hide Fits, UnitsFor, LastBytes, Apart;
    var h := Graph(g.nodes[p := x], g.files);
    forall q | q in h.nodes
      ensures 0 < q < n && Fits(h.nodes[q]) && HasFile(h, q) && Upward(q, h.nodes[q])
    {
      if q != p { assert HasFile(g, q); }
    }
  }

  /** One more data node, whose extent is new. */
  lemma PutData(g: Graph, n: nat, limit: nat, p: nat, x: Node, b: seq<Byte>)
    requires Sorted(g, n, limit) && 0 < p < n && p !in g.nodes && Fits(x) && x.Data? && x.lba == limit >= FIRST_DATA
             && x.next == 0
    requires x.blocks == UnitsFor(|b|) && x.last == LastBytes(|b|) && |b| <= INT_MAX
    ensures var h := Graph(g.nodes[p := x], g.files[p := b]);
            Sorted(h, n, limit + x.blocks) && Grew(g, h, p, p + 1)
  {
    hide Fits, UnitsFor, LastBytes;
    var h := Graph(g.nodes[p := x], g.files[p := b]);
    forall q | q in h.nodes
      ensures 0 < q < n && Fits(h.nodes[q]) && HasFile(h, q) && Upward(q, h.nodes[q])
              && Within(h.nodes[q], FIRST_DATA, limit + x.blocks)
    {
      if q != p { assert HasFile(g, q) && Within(g.nodes[q], FIRST_DATA, limit); }
    }
    forall q, r | q in h.nodes && r in h.nodes && q != r && h.nodes[q].Data? && h.nodes[r].Data?
      ensures Apart(h.nodes[q], h.nodes[r])
    {
      if q == p { assert Within(g.nodes[r], FIRST_DATA, limit); }
      if r == p { assert Within(g.nodes[q], FIRST_DATA, limit); }
    }
  }

  lemma SortedMore(g: Graph, n: nat, m: nat, limit: nat)
    requires Sorted(g, n, limit) && n <= m
    ensures Sorted(g, m, limit)
  {
    hide Fits, HasFile, ExtentsApart;
  }

  class Builder {
    var nodes: map<nat, Node>
    /** For each data node, what the host file behind it holds. */
    var hostFiles: map<nat, seq<Byte>>
    var nextEntry: nat
    var nextBlock: nat
    var tableLba: nat
    var unused: nat
    var root: nat
    var predir: nat

    /** The counters as the program starts with them: no table yet. */
    constructor ()
      ensures nodes == map[] && hostFiles == map[] && nextEntry == 0x100 && nextBlock == 1
      ensures unused == 0 && root == 0 && predir == 0
    {
      nodes, hostFiles, nextEntry, nextBlock, tableLba, unused, root, predir := map[], map[], 0x100, 1, 0, 0, 0, 0;
    }

    ghost function G(): Graph
      reads this
    {
      Graph(nodes, hostFiles)
    }

    /** The table exists, in blocks 1 and 2. */
    ghost predicate Valid()
      reads this
    {
      tableLba == 1 && 0 < nextEntry <= 0x100 && FIRST_DATA <= nextBlock && Sorted(G(), nextEntry, nextBlock)
    }

    method AllocBlocks(count: nat) returns (n: nat)
      modifies this`nextBlock
      ensures n == old(nextBlock) && nextBlock == old(nextBlock) + count
    {
      n := nextBlock;
      nextBlock := nextBlock + count;
    }

    /** new_node, while one table suffices. */
    method NewNode() returns (p: nat)
      requires (Valid() && nextEntry < 0x100) || (nextEntry == 0x100 && nextBlock == 1 && nodes == map[])
      modifies this`nextEntry, this`nextBlock, this`tableLba
      ensures Valid() && p == (if old(nextEntry) == 0x100 then 1 else old(nextEntry)) && nextEntry == p + 1
      ensures nextBlock == old(nextBlock) + if old(nextEntry) < 0x100 then 0 else TABLE_BLOCKS
      ensures p !in nodes && p > 0
    {
      hide Fits, HasFile;
      if nextEntry >= 0x100 {
        nextEntry := 1;
        tableLba := AllocBlocks(TABLE_BLOCKS);
      }
      p := nextEntry;
      nextEntry := nextEntry + 1;
    }

    /** The tail of the last chunk is what malloc left there. */
    method Junk(n: nat) returns (s: seq<Byte>)
      ensures |s| == n
    {
      assert |Zeros(n)| == n;
      s :| |s| == n;
    }

    method MakeString(s: Name) returns (p: nat)
      requires Valid() && nextEntry + Chunks(|s|) <= 0x100
      modifies this
      ensures Valid() && NameAt(G(), p, s) && p == old(nextEntry) && nextEntry == p + Chunks(|s|)
      ensures Grew(old(G()), G(), p, nextEntry) && nextBlock == old(nextBlock)
      ensures root == old(root) && predir == old(predir) && unused == old(unused)
      decreases |s|
    {
      hide Sorted, Grew;
      ghost var g := G();
      p := NewNode();
      if |s| > CHUNK {
        var rest := MakeString(s[CHUNK..]);
        ghost var g1, x := G(), Str(CHUNK, s[..CHUNK], rest);
        NodeIsNew(g, g1, p, p + 1, nextEntry);
        PutNode(g1, nextEntry, nextBlock, p, x);
        nodes := nodes[p := Str(CHUNK, s[..CHUNK], rest)];
        NameStays(g1, G(), p, p + 1, rest, s[CHUNK..]);
        GrewAround(g, g1, G(), p, nextEntry);
      } else {
        var tail := Junk(CHUNK - |s|);
        ghost var x := Str(|s|, s + tail, 0);
        PutNode(g, nextEntry, nextBlock, p, x);
        nodes := nodes[p := Str(|s|, s + tail, 0)];
        assert x.chars[..|s|] == s;
      }
    }

    /** alloc_blocks_for_file.  The node number is used up even when there is no file to read. */
    method AllocBlocksForFile(body: Option<seq<Byte>>) returns (d: nat)
      requires Valid() && nextEntry < 0x100 && nextBlock < 0x1_0000_0000_0000_0000
      requires body.Some? ==> |body.value| <= INT_MAX
      modifies this
      ensures Valid() && BodyAt(G(), d, body) && nextEntry == old(nextEntry) + 1 && (d == 0 || d == old(nextEntry))
      ensures Grew(old(G()), G(), old(nextEntry), nextEntry)
      ensures old(nextBlock) <= nextBlock <= old(nextBlock) + if body.Some? then UnitsFor(|body.value|) else 0
      ensures root == old(root) && predir == old(predir) && unused == old(unused)
    {
      hide Sorted, Grew;
      ghost var g := G();
      var n := NewNode();
      if body.None? {
        NothingGrew(g, n, n + 1);
        return 0;
      }
      var bytes := |body.value|;
      var blocks, last;
      if bytes % BLOCK == 0 {
        blocks, last := bytes / BLOCK, BLOCK;
      } else {
        blocks, last := bytes / BLOCK + 1, bytes % BLOCK;
      }
      ghost var limit := nextBlock;
      var lba := AllocBlocks(blocks);
      PutData(g, nextEntry, limit, n, Data(blocks, lba, 0, last), body.value);
      nodes, hostFiles := nodes[n := Data(blocks, lba, 0, last)], hostFiles[n := body.value];
      d := n;
    }

    /** add_fs_entry_h: the entries ps, numbered as Place says, below the directory node `parent`
        (null at the top level). */
    method AddEntries(ps: Tree<()>, parent: nat) returns (n: nat)
      requires !ps.Nil? && Valid() && Writable(ps) && parent < U32_LIMIT && Roomy(ps, nextEntry, nextBlock)
      modifies this
      ensures Valid() && n == Head(Place(ps, old(nextEntry)).0) && n == old(nextEntry)
      ensures nextEntry == Place(ps, old(nextEntry)).1 && n < nextEntry
      ensures Rep(G(), Place(ps, old(nextEntry)).0, parent)
      ensures Grew(old(G()), G(), old(nextEntry), nextEntry)
      ensures old(nextBlock) <= nextBlock <= old(nextBlock) + BlocksIn(ps)
      ensures root == old(root) && predir == old(predir) && unused == old(unused)
      decreases ps, 0
    {
      hide Sorted, Grew, Rep, NameAt, Fits, BodyAt, UnitsFor, Place, Roomy, Chunks, HasFile;
      RoomyParts(ps, nextEntry, nextBlock);
      ghost var g0 := G();
      n := NewNode();
      // perm is never assigned: it is what malloc left
      var perm: Byte := *;
      var name := MakeString(ps.name);
      ghost var g1, a := G(), nextEntry;
      match ps {
        case File(_, _, owner, body, rest) => {
          var next := AddRest(rest, parent);
          ghost var g2, b := G(), nextEntry;
          var data := AllocBlocksForFile(body);
          FileBuilt(g0, g1, g2, G(), n, a, b, nextEntry, nextBlock, perm, name, next, data, parent, ps);
          nodes := nodes[n := Entry(NT_FILE, perm, owner, name, data, next, parent)];
        }
        case Dir(_, _, owner, contents, rest) => {
          var first := AddRest(contents, n);
          ghost var g2, b := G(), nextEntry;
          var next := AddRest(rest, parent);
          DirBuilt(g0, g1, g2, G(), n, a, b, nextEntry, nextBlock, perm, name, first, next, parent, ps);
          nodes := nodes[n := Entry(NT_DIR, perm, owner, name, first, next, if parent == 0 then n else parent)];
        }
        case Indirect(_, _, owner, dest, rest) => {
          var to := MakeString(dest);
          ghost var g2, b := G(), nextEntry;
          var next := AddRest(rest, parent);
          IndirectBuilt(g0, g1, g2, G(), n, a, b, nextEntry, nextBlock, perm, name, to, next, parent, ps);
          nodes := nodes[n := Entry(NT_INDIRECT, perm, owner, name, to, next, parent)];
        }
      }
    }

    /** The rest of a list, if there is any. */
    method AddRest(ps: Tree<()>, parent: nat) returns (n: nat)
      requires Valid() && Writable(ps) && parent < U32_LIMIT && Roomy(ps, nextEntry, nextBlock)
      modifies this
      ensures Valid() && n == Head(Place(ps, old(nextEntry)).0) && nextEntry == Place(ps, old(nextEntry)).1
      ensures n == 0 || old(nextEntry) <= n < nextEntry
      ensures Rep(G(), Place(ps, old(nextEntry)).0, parent)
      ensures Grew(old(G()), G(), old(nextEntry), nextEntry)
      ensures old(nextBlock) <= nextBlock <= old(nextBlock) + BlocksIn(ps)
      ensures root == old(root) && predir == old(predir) && unused == old(unused)
      decreases ps, 1
    {
      hide Sorted, Grew, Roomy;
      if ps.Nil? {
        NothingGrew(G(), nextEntry, nextEntry);
        n := 0;
      } else {
        n := AddEntries(ps, parent);
      }
    }

    /** Nothing has been added yet. */
    ghost predicate Initial()
      reads this
    {
      nodes == map[] && hostFiles == map[] && nextEntry == 0x100 && nextBlock == 1 && unused == 0
    }

    /** Where the next top-level entry will be numbered: the first one comes after the node that
        marks unused space. */
    ghost function NextTop(): nat
      reads this
    {
      if unused == 0 then 2 else nextEntry
    }

    /** add_fs_entry.  False stands for the error exit: only directories named "/" and "@" are
        allowed at the top level. */
    method AddTop(ps: Tree<()>) returns (ok: bool)
      requires !ps.Nil? && (Initial() || (Valid() && unused != 0)) && Writable(ps)
      requires Roomy(ps, NextTop(), if unused == 0 then FIRST_DATA else nextBlock)
      modifies this
      ensures ok <==> ps.Dir? && (ps.name == ROOT_NAME || ps.name == PREDIR_NAME)
      ensures ok ==>
                && Valid() && unused != 0 && Rep(G(), Place(ps, old(NextTop())).0, 0)
                && nextEntry == Place(ps, old(NextTop())).1
                && Grew(old(G()), G(), if old(unused) == 0 then 1 else old(nextEntry), nextEntry)
                && nextBlock <= (if old(unused) == 0 then FIRST_DATA else old(nextBlock)) + BlocksIn(ps)
      ensures ok && ps.name == ROOT_NAME ==> root == old(NextTop()) && predir == old(predir)
      ensures ok && ps.name == PREDIR_NAME ==> predir == old(NextTop()) && root == old(root)
      ensures old(unused) != 0 ==> unused == old(unused)
      ensures old(unused) == 0 ==> ok ==> unused == 1 && 1 in nodes && nodes[1].Data? && nodes[1].next == 0
    {
      hide Rep, Grew, Fits, HasFile, Sorted, Place;
      ghost var g0 := G();
      if unused == 0 {
        unused := NewNode();
        var lba: nat := Leftover();
        ghost var g := G();
        PutUnused(g, nextEntry, nextBlock, unused, lba);
        nodes := nodes[unused := Data(0, lba, 0, 0)];
      } else {
        NothingGrew(g0, nextEntry, nextEntry);
      }
      ghost var g1, m := G(), if old(unused) == 0 then 1 else old(nextEntry);
      if !ps.Dir? { return false; }
      ghost var n := nextEntry;
      if ps.name == ROOT_NAME {
        root := AddEntries(ps, 0);
      } else if ps.name == PREDIR_NAME {
        predir := AddEntries(ps, 0);
      } else {
        return false;
      }
      GrewTwice(g0, g1, G(), m, n, nextEntry);
      UnusedStays(g1, G(), n, nextEntry);
      ok := true;
    }

    /** A field that is never assigned. */
    method Leftover() returns (v: nat)
      ensures v < 0x1_0000_0000_0000_0000
    {
      v :| v < 0x1_0000_0000_0000_0000;
    }
  }

  const ROOT_NAME: Name := [47]
  const PREDIR_NAME: Name := [64]

  lemma PutUnused(g: Graph, n: nat, limit: nat, p: nat, lba: nat)
    requires Sorted(g, n, limit) && 0 < p < n && p !in g.nodes && p !in g.files && lba < 0x1_0000_0000_0000_0000
    ensures var h := Graph(g.nodes[p := Data(0, lba, 0, 0)], g.files); Sorted(h, n, limit) && Grew(g, h, p, p + 1)
  {
    hide Fits, UnitsFor, LastBytes;
    var h := Graph(g.nodes[p := Data(0, lba, 0, 0)], g.files);
    assert Fits(h.nodes[p]) by { FitsUnused(lba); }
    forall q | q in h.nodes
      ensures 0 < q < n && Fits(h.nodes[q]) && HasFile(h, q) && Upward(q, h.nodes[q])
    {
      if q != p { assert HasFile(g, q); }
    }
  }

  lemma FitsUnused(lba: nat)
    requires lba < 0x1_0000_0000_0000_0000
    ensures Fits(Data(0, lba, 0, 0))
  {
  }

  lemma UnusedStays(g: Graph, h: Graph, m: nat, n: nat)
    requires Grew(g, h, m, n)
    ensures 1 in g.nodes ==> 1 in h.nodes && h.nodes[1] == g.nodes[1]
  {
    if 1 in g.nodes { assert AgreeAt(g, h, 1); }
  }

  /** Node numbers and blocks suffice for the entries ps. */
  ghost predicate Roomy(ps: Tree<()>, n: nat, limit: nat) {
    Place(ps, n).1 <= 0x100 && limit + BlocksIn(ps) < 0x1_0000_0000_0000_0000
  }

  lemma RoomyParts(ps: Tree<()>, n: nat, limit: nat)
    requires !ps.Nil? && Roomy(ps, n, limit)
    ensures n + 1 + Chunks(|ps.name|) <= Place(ps, n).1 <= 0x100
    ensures limit < 0x1_0000_0000_0000_0000
    ensures var m := n + 1 + Chunks(|ps.name|);
            match ps
            case File(_, _, _, body, next) => m <= Place(next, m).1 < 0x100 && Roomy(next, m, limit)
            case Dir(_, _, _, contents, next) =>
              && Roomy(contents, m, limit) && m <= Place(contents, m).1 <= Place(next, Place(contents, m).1).1 <= 0x100
              && forall k: nat :: k <= limit + BlocksIn(contents) ==> Roomy(next, Place(contents, m).1, k)
            case Indirect(_, _, _, dest, next) =>
              var k := m + Chunks(|dest|);
              k <= Place(next, k).1 <= 0x100 && Roomy(next, k, limit)
  {
    match ps {
      case File(_, name, _, _, next) => { PlaceKeepsTree(next, n + 1 + Chunks(|name|)); }
      case Dir(_, name, _, contents, next) => {
        PlaceKeepsTree(contents, n + 1 + Chunks(|name|));
        PlaceKeepsTree(next, Place(contents, n + 1 + Chunks(|name|)).1);
      }
      case Indirect(_, name, _, dest, next) => { PlaceKeepsTree(next, n + 1 + Chunks(|name|) + Chunks(|dest|)); }
    }
  }

  lemma BodyStays(g: Graph, h: Graph, m: nat, n: nat, p: nat, body: Option<seq<Byte>>)
    requires Grew(g, h, m, n) && BodyAt(g, p, body)
    ensures BodyAt(h, p, body)
  {
    hide UnitsFor, LastBytes;
    if body.Some? { assert AgreeAt(g, h, p); }
  }

  lemma EntryFits(p: nat, n: nat, x: Node)
    requires x.Entry? && EntryKind(x.kind) && p < n <= 0x100 && x.owner < U32_LIMIT && x.parent < U32_LIMIT
    requires p < x.name < n && (x.first == 0 || p < x.first < n) && (x.next == 0 || p < x.next < n)
    ensures Fits(x) && Upward(p, x)
  {
  }

  /** The entry's own node is put in last. */
  lemma EntryPut(g0: Graph, g1: Graph, g2: Graph, g3: Graph, n: nat, a: nat, b: nat, c: nat, limit: nat, x: Node)
    requires Grew(g0, g1, n + 1, a) && Grew(g1, g2, a, b) && Grew(g2, g3, b, c) && Sorted(g3, c, limit)
    requires 0 < n < a <= b <= c <= 0x100 && n !in g0.nodes
    requires x.Entry? && EntryKind(x.kind) && x.owner < U32_LIMIT && x.parent < U32_LIMIT
    requires n < x.name < c && (x.first == 0 || n < x.first < c) && (x.next == 0 || n < x.next < c)
    ensures var h := Graph(g3.nodes[n := x], g3.files);
            Sorted(h, c, limit) && Grew(g0, h, n, c) && Grew(g3, h, n, n + 1)
  {
    hide Sorted, Grew, HasFile, Upward, Fits, AgreeAt;
    GrewTwice(g0, g1, g2, n + 1, a, b);
    GrewTwice(g0, g2, g3, n + 1, b, c);
    NodeIsNew(g0, g3, n, n + 1, c);
    EntryFits(n, c, x);
    PutNode(g3, c, limit, n, x);
    GrewAround(g0, g3, Graph(g3.nodes[n := x], g3.files), n, c);
  }

  lemma FileBuilt(g0: Graph, g1: Graph, g2: Graph, g3: Graph, n: nat, a: nat, b: nat, c: nat, limit: nat, perm: Byte,
                  name: nat, next: nat, data: nat, parent: nat, ps: Tree<()>)
    requires ps.File? && Writable(ps) && parent < U32_LIMIT && 0 < n < a <= b <= c <= 0x100 && n !in g0.nodes
    requires Grew(g0, g1, n + 1, a) && Grew(g1, g2, a, b) && Grew(g2, g3, b, c) && Sorted(g3, c, limit)
    requires NameAt(g1, name, ps.name) && Rep(g2, Place(ps.next, a).0, parent) && next == Head(Place(ps.next, a).0)
    requires b == Place(ps.next, a).1 && c == b + 1
    requires BodyAt(g3, data, ps.body) && a == n + 1 + Chunks(|ps.name|) && n < name < c
             && (next == 0 || n < next < c) && (data == 0 || n < data < c)
    ensures var h := Graph(g3.nodes[n := Entry(NT_FILE, perm, ps.owner, name, data, next, parent)], g3.files);
            && Sorted(h, c, limit) && Grew(g0, h, n, c) && Rep(h, Place(ps, n).0, parent)
            && n == Head(Place(ps, n).0) && c == Place(ps, n).1
  {
    hide Sorted, Grew, NameAt, BodyAt, HasFile, UnitsFor, Upward, Fits, AgreeAt, Chunks;
    var x := Entry(NT_FILE, perm, ps.owner, name, data, next, parent);
    var h := Graph(g3.nodes[n := x], g3.files);
    EntryPut(g0, g1, g2, g3, n, a, b, c, limit, x);
    NameStays(g1, g2, a, b, name, ps.name);
    NameStays(g2, g3, b, c, name, ps.name);
    NameStays(g3, h, n, n + 1, name, ps.name);
    RepStays(g2, g3, b, c, Place(ps.next, a).0, parent);
    RepStays(g3, h, n, n + 1, Place(ps.next, a).0, parent);
    BodyStays(g3, h, n, n + 1, data, ps.body);
  }

  lemma DirBuilt(g0: Graph, g1: Graph, g2: Graph, g3: Graph, n: nat, a: nat, b: nat, c: nat, limit: nat, perm: Byte,
                 name: nat, first: nat, next: nat, parent: nat, ps: Tree<()>)
    requires ps.Dir? && Writable(ps) && parent < U32_LIMIT && 0 < n < a <= b <= c <= 0x100 && n !in g0.nodes
    requires Grew(g0, g1, n + 1, a) && Grew(g1, g2, a, b) && Grew(g2, g3, b, c) && Sorted(g3, c, limit)
    requires NameAt(g1, name, ps.name) && Rep(g2, Place(ps.contents, a).0, n) && first == Head(Place(ps.contents, a).0)
    requires b == Place(ps.contents, a).1 && Rep(g3, Place(ps.next, b).0, parent) && next == Head(Place(ps.next, b).0)
    requires c == Place(ps.next, b).1
    requires a == n + 1 + Chunks(|ps.name|) && n < name < c && (next == 0 || n < next < c)
             && (first == 0 || n < first < c)
    ensures var x := Entry(NT_DIR, perm, ps.owner, name, first, next, if parent == 0 then n else parent);
            var h := Graph(g3.nodes[n := x], g3.files);
            && Sorted(h, c, limit) && Grew(g0, h, n, c) && Rep(h, Place(ps, n).0, parent)
            && n == Head(Place(ps, n).0) && c == Place(ps, n).1
  {
    hide Sorted, Grew, NameAt, BodyAt, HasFile, UnitsFor, Upward, Fits, AgreeAt, Chunks;
    var x := Entry(NT_DIR, perm, ps.owner, name, first, next, if parent == 0 then n else parent);
    var h := Graph(g3.nodes[n := x], g3.files);
    EntryPut(g0, g1, g2, g3, n, a, b, c, limit, x);
    NameStays(g1, g2, a, b, name, ps.name);
    NameStays(g2, g3, b, c, name, ps.name);
    NameStays(g3, h, n, n + 1, name, ps.name);
    RepStays(g2, g3, b, c, Place(ps.contents, a).0, n);
    RepStays(g3, h, n, n + 1, Place(ps.contents, a).0, n);
    RepStays(g3, h, n, n + 1, Place(ps.next, b).0, parent);
  }

  lemma IndirectBuilt(g0: Graph, g1: Graph, g2: Graph, g3: Graph, n: nat, a: nat, b: nat, c: nat, limit: nat,
                      perm: Byte, name: nat, to: nat, next: nat, parent: nat, ps: Tree<()>)
    requires ps.Indirect? && Writable(ps) && parent < U32_LIMIT && 0 < n < a <= b <= c <= 0x100 && n !in g0.nodes
    requires Grew(g0, g1, n + 1, a) && Grew(g1, g2, a, b) && Grew(g2, g3, b, c) && Sorted(g3, c, limit)
    requires NameAt(g1, name, ps.name) && NameAt(g2, to, ps.dest)
    requires b == a + Chunks(|ps.dest|) && Rep(g3, Place(ps.next, b).0, parent) && next == Head(Place(ps.next, b).0)
    requires c == Place(ps.next, b).1
    requires a == n + 1 + Chunks(|ps.name|) && n < name < c && (next == 0 || n < next < c) && n < to < c
    ensures var h := Graph(g3.nodes[n := Entry(NT_INDIRECT, perm, ps.owner, name, to, next, parent)], g3.files);
            && Sorted(h, c, limit) && Grew(g0, h, n, c) && Rep(h, Place(ps, n).0, parent)
            && n == Head(Place(ps, n).0) && c == Place(ps, n).1
  {
    hide Sorted, Grew, NameAt, BodyAt, HasFile, UnitsFor, Upward, Fits, AgreeAt, Chunks;
    var x := Entry(NT_INDIRECT, perm, ps.owner, name, to, next, parent);
    var h := Graph(g3.nodes[n := x], g3.files);
    EntryPut(g0, g1, g2, g3, n, a, b, c, limit, x);
    NameStays(g1, g2, a, b, name, ps.name);
    NameStays(g2, g3, b, c, name, ps.name);
    NameStays(g3, h, n, n + 1, name, ps.name);
    NameStays(g2, g3, b, c, to, ps.dest);
    NameStays(g3, h, n, n + 1, to, ps.dest);
    RepStays(g3, h, n, n + 1, Place(ps.next, b).0, parent);
  }

  lemma NodeIsNew(g: Graph, h: Graph, p: nat, m: nat, n: nat)
    requires Grew(g, h, m, n) && p !in g.nodes && p < m
    ensures p !in h.nodes
  {
  }

  /** Growing by p+1 .. n-1 and then by p. */
  lemma GrewAround(g: Graph, h: Graph, k: Graph, p: nat, n: nat)
    requires Grew(g, h, p + 1, n) && Grew(h, k, p, p + 1) && p < n
    ensures Grew(g, k, p, n)
  {
    forall q | q in g.nodes
      ensures AgreeAt(g, k, q)
    {
      assert AgreeAt(g, h, q) && AgreeAt(h, k, q);
    }
  }

  lemma NothingGrew(g: Graph, m: nat, n: nat)
    ensures Grew(g, g, m, n)
  {
  }
}
