/** Path names: fs_aquire, fs_release and whole-file reads on an image in memory. */
module PathLookup {
  import opened Bytes
  import opened Options
  import opened ByteStores
  import opened ImageFormat
  import opened ImageWriter
  import opened Volumes

  const SLASH: Byte := 47      // the character /

  ghost predicate NoNul(s: seq<Byte>) {
    forall i :: 0 <= i < |s| ==> s[i] != 0
  }

  /** A name that a path can mention. */
  ghost predicate Mentionable(s: Name) {
    s != [] && NoNul(s) && 47 !in s
  }

  ghost predicate WellNamed<L>(t: Tree<L>) {
    match t
    case Nil => true
    case File(_, name, _, _, next) => Mentionable(name) && WellNamed(next)
    case Dir(_, name, _, contents, next) => Mentionable(name) && WellNamed(contents) && WellNamed(next)
    case Indirect(_, name, _, _, next) => Mentionable(name) && WellNamed(next)
  }

  // ----- what a path denotes -----

  /** The path up to its first slash. */
  function Component(fn: seq<Byte>): (c: Name)
    ensures |c| <= |fn| && SLASH !in c
    ensures |c| < |fn| ==> fn[|c|] == SLASH
    ensures c <= fn
  {
    if fn == [] || fn[0] == SLASH then [] else [fn[0]] + Component(fn[1..])
  }

  /** The first of the entries t with this name, and those after it. */
  function Child<L>(t: Tree<L>, name: Name): (c: Tree<L>)
    ensures c.Nil? || c.name == name
  {
    if t.Nil? || t.name == name then t else Child(t.next, name)
  }

  /** The outcome of a lookup: nothing, the directory that a path with nothing left ends at, or the
      entry its last name denotes. */
  datatype Where = Nowhere | Ends(t: Tree<nat>) | Found(t: Tree<nat>)

  /** Lookup from the directory `here`.  A slash at the start, also after an earlier slash, goes
      back to the root. */
  function Locate(root: Tree<nat>, here: Tree<nat>, fn: seq<Byte>): Where
    decreases |fn|, 1
  {
    if fn != [] && fn[0] == SLASH then LocateIn(root, root, fn[1..]) else LocateIn(root, here, fn)
  }

  function LocateIn(root: Tree<nat>, here: Tree<nat>, fn: seq<Byte>): Where
    decreases |fn|, 0
  {
    if here.Nil? then Nowhere
    else if fn == [] then Ends(here)
    else if !here.Dir? then Nowhere
    else
      var comp := Component(fn);
      var c := Child(here.contents, comp);
      if c.Nil? then Nowhere
      else if |comp| == |fn| then Found(c)
      else if !c.Dir? then Nowhere
      else Locate(root, c, fn[|comp| + 1..])
  }

  lemma {:induction false} ComponentEnds(fn: seq<Byte>, k: nat)
    requires k <= |fn| && SLASH !in fn[..k] && (k == |fn| || fn[k] == SLASH)
    ensures Component(fn) == fn[..k]
  {
    if k > 0 {
      assert fn[0] == fn[..k][0] && fn[..k] == [fn[0]] + fn[1..][..k - 1];
      ComponentEnds(fn[1..], k - 1);
    }
  }

  /** What a name at the front of the path, followed by its end or a slash, must be. */
  lemma FrontIsComponent(fn: seq<Byte>, s: Name)
    requires Mentionable(s)
    ensures s == Component(fn) <==> s <= fn && (|s| == |fn| || fn[|s|] == SLASH)
  {
    if s <= fn && (|s| == |fn| || fn[|s|] == SLASH) {
      assert s == fn[..|s|];
      ComponentEnds(fn, |s|);
    }
  }

  lemma {:induction false} ChildIsThere(g: Graph, t: Tree<nat>, parent: nat, name: Name)
    requires Rep(g, t, parent) && WellNamed(t)
    ensures Rep(g, Child(t, name), parent) && WellNamed(Child(t, name))
    ensures Ptrs(g, Child(t, name), parent) <= Ptrs(g, t, parent)
  {
    hide NameAt, BodyAt, NamePtrs;
    if !t.Nil? && t.name != name { ChildIsThere(g, t.next, parent, name); }
  }

  // ----- the kernel's functions -----

  /** Path strings end with a NUL. */
  function CharAt(fn: seq<Byte>, i: nat): Byte {
    if i < |fn| then fn[i] else 0
  }

  /** fn has s at position off. */
  predicate HasAt(fn: seq<Byte>, off: nat, s: seq<Byte>) {
    off + |s| <= |fn| && fn[off..off + |s|] == s
  }

  lemma HasEach(fn: seq<Byte>, off: nat, s: seq<Byte>, i: nat)
    requires i < |s|
    ensures HasAt(fn, off, s) ==> CharAt(fn, off + i) == s[i]
  {
    if HasAt(fn, off, s) { assert fn[off..off + |s|][i] == fn[off + i]; }
  }

  lemma NoNulBefore(s: seq<Byte>, n: nat, i: nat)
    requires n <= |s|
    ensures NoNul(s[..n]) && i < n ==> s[i] != 0
  {
    if i < n { assert s[..n][i] == s[i]; }
  }

  /** strncmp of the kernel: it stops at the first string's NUL, or after sz characters. */
  method Strncmp(s1: seq<Byte>, s2: seq<Byte>, off: nat, sz: nat) returns (r: nat)
    requires sz <= |s1| && off <= |s2| && NoNul(s2)
    ensures NoNul(s1[..sz]) ==> (r == 0 <==> HasAt(s2, off, s1[..sz]))
  {
    var i := 0;
    while i < sz && s1[i] != 0
      invariant i <= sz && off + i <= |s2|
      invariant s2[off..off + i] == s1[..i]
    {
      if s1[i] != CharAt(s2, off + i) {
        r := i + 1;
        HasEach(s2, off, s1[..sz], i);
        return;
      }
      assert s1[..i + 1] == s1[..i] + [s1[i]];
      assert s2[off..off + (i + 1)] == s2[off..off + i] + [s2[off + i]];
      i := i + 1;
    }
    r := 0;
    NoNulBefore(s1, sz, i);
  }

  class Volume {
    /** The node table in memory; bit 7 of a node's first byte is its lock. */
    var table: Table
    const disk: Disk

    constructor (disk: Disk)
      ensures this.disk == disk && table == Read(disk, TABLE_AT, BLOCK)
    {
      this.disk, table := disk, Read(disk, TABLE_AT, BLOCK);
    }

    ghost function G(): Graph
      reads this
    {
      GraphOf(table, disk)
    }

    /** resolve, and a look at the node there. */
    method Resolve(p: nat) returns (x: Node)
      requires Resolvable(p)
      ensures p in G().nodes && x == G().nodes[p]
    {
      hide Decode, SlotOf;
      x := Decode(SlotOf(table, p));
    }

    /** The comparison of a name, chunk by chunk, with the front of a path. */
    method MatchName(fn: seq<Byte>, p: nat, ghost s: Name) returns (good: bool, i: nat)
      requires NameAt(G(), p, s) && NoNul(s) && NoNul(fn)
      ensures good <==> s <= fn
      ensures good ==> i == |s|
    {
      hide Decode, SlotOf, ExtentSize, Read;
      var n := Resolve(p);
      ghost var rest := s;
      ChunkOf(G(), p, s);
      assert s[0..] == s;
      var r := Strncmp(n.chars, fn, 0, n.size);
      i := 0;
      if r != 0 {
        ChunkNeeded(fn, s, 0, n.size);
        return false, 0;
      }
      good := true;
      ghost var q := p;
      while n.next != 0
        invariant q in G().nodes && n == G().nodes[q] && NameAt(G(), q, rest) && NoNul(rest)
        invariant i <= |s| && rest == s[i..] && good && n.size <= |rest|
        invariant i + n.size <= |fn| && s[..i + n.size] == fn[..i + n.size]
        decreases |rest|
      {
        i := i + n.size;
        rest := rest[n.size..];
        q := n.next;
        n := Resolve(n.next);
        ChunkOf(G(), q, rest);
        var r := Strncmp(n.chars, fn, i, n.size);
        if r != 0 {
          ChunkNeeded(fn, s, i, n.size);
          return false, i;
        }
        ChunkThere(fn, s, i, n.size);
      }
      i := i + n.size;
    }

    /** fs_aquire: `cd` is the directory that a relative path starts from, or null. */
    method Aquire(fn: seq<Byte>, cd: nat, ghost root: Tree<nat>, ghost here: Tree<nat>, ghost parent: nat)
      returns (h: nat)
      requires NoNul(fn) && Rooted(table, disk, root)
      requires Rep(G(), here, parent) && cd == Head(here) && WellNamedBelow(here)
      modifies this
      ensures G() == old(G()) && Rooted(table, disk, root)
      ensures Acquired(old(table), table, Locate(root, here, fn), h)
      decreases |fn|
    {
      hide Decode, SlotOf, ExtentSize, Read, Rep, WellNamed, Component, Child, Mentionable, FromLe, GraphOf, Locate,
        LocateIn;
      LocateStarts(root, here, fn);
      LocateSteps(root, here, fn);
      var rest := fn;
      ghost var dir, above := here, parent;
      if CharAt(fn, 0) == SLASH {
        h := RootOf(table);
        rest := fn[1..];
        dir, above := root, 0;
      } else {
        h := cd;
        NullIsNil(G(), here, parent);
        if h == 0 { return 0; }
      }
      LocateSteps(root, dir, rest);
      if rest == [] { return h; }
      HereIsEntry(G(), dir, above);
      NodesResolve(table, disk, h);
      var x := Resolve(h);
      if x.kind != NT_DIR { return 0; }
      DirIs(G(), dir, above);
      h := x.first;
      ghost var t, comp := dir.contents, Component(rest);
      NullIsNil(G(), t, dir.at);
      NoChild(comp);
      if h == 0 { return 0; }
      while true
        invariant !t.Nil? && h == t.at && Rep(G(), t, dir.at) && WellNamed(t) && table == old(table)
        invariant Child(dir.contents, comp) == Child(t, comp)
        decreases t
      {
        HereIsEntry(G(), t, dir.at);
        ChildStep(t, comp);
        FrontIsComponent(rest, t.name);
        NodesResolve(table, disk, h);
        x := Resolve(h);
        var good, i := MatchName(rest, x.name, t.name);
        if good {
          if CharAt(rest, i) == SLASH {
            if x.kind != NT_DIR { return 0; }
            BelowChild(t);
            h := Aquire(rest[i + 1..], h, root, t, dir.at);
            return;
          } else if CharAt(rest, i) == 0 {
            h := TryLock(h);
            LockedStaysRooted(old(table), table, disk, root);
            return;
          }
        }
        NullIsNil(G(), t.next, dir.at);
        if x.next == 0 { return 0; }
        h := x.next;
        t := t.next;
      }
    }

    /** trylock on a node: null if it was locked. */
    method TryLock(p: nat) returns (h: nat)
      requires Resolvable(p)
      modifies this
      ensures LockTaken(old(table), table, p, h)
    {
      if table[SLOT_BYTES * p] >= LOCK {
        h := 0;
      } else {
        table := table[SLOT_BYTES * p := table[SLOT_BYTES * p] + LOCK];
        h := p;
      }
    }

    /** fs_release: the lock bit is flipped, whatever it was. */
    method Release(p: nat) returns (was: bool)
      requires Resolvable(p)
      modifies this
      ensures was <==> old(table)[SLOT_BYTES * p] >= LOCK
      ensures table == Flipped(old(table), p) && G() == old(G())
    {
      hide Decode, GraphOf;
      ghost var t := table;
      was := table[SLOT_BYTES * p] >= LOCK;
      if was {
        table := table[SLOT_BYTES * p := table[SLOT_BYTES * p] - LOCK];
      } else {
        table := table[SLOT_BYTES * p := table[SLOT_BYTES * p] + LOCK];
      }
      LockKeepsGraph(t, disk, p, table[SLOT_BYTES * p]);
    }

    /** fs_aquire and then, if something was handed out, fs_release: the table is as before exactly if
        nothing was, or the path does not end open. */
    method AquireAndRelease(fn: seq<Byte>, cd: nat, ghost root: Tree<nat>, ghost here: Tree<nat>, ghost parent: nat)
      returns (h: nat)
      requires NoNul(fn) && Rooted(table, disk, root)
      requires Rep(G(), here, parent) && cd == Head(here) && WellNamedBelow(here)
      modifies this
      ensures G() == old(G())
      ensures table == old(table) <==> h == 0 || !EndsOpen(fn)
      ensures h != 0 && EndsOpen(fn) ==> Resolvable(h) && table == Flipped(old(table), h)
    {
      hide Decode, SlotOf, Rep, WellNamed, GraphOf, Locate, LocateIn, Flipped, Rooted, Acquired, WellNamedBelow;
      ghost var t := table;
      RootParts(table, disk, root);
      ghost var q := LocatedIsThere(G(), root, here, parent, fn);
      ghost var w := Locate(root, here, fn);
      if !w.Nowhere? { HereIsEntry(G(), w.t, q); }
      h := Aquire(fn, cd, root, here, parent);
      AquiredIs(t, table, w, h);
      LastCharDecides(root, here, fn);
      if h != 0 {
        NodesResolve(t, disk, h);
        ReleaseRestoresIff(t, table, root, here, fn, h);
        var was := Release(h);
      }
    }

    /** A directory is acquired by its name and a slash, released, and acquired by its name. */
    method SlashThenName(name: Name, ghost root: Tree<nat>) returns (h: nat, again: nat)
      requires Mentionable(name) && Rooted(table, disk, root) && Child(root.contents, name).Dir?
      requires var c := Child(root.contents, name); Resolvable(c.at) && table[SLOT_BYTES * c.at] < LOCK
      modifies this
      ensures h == Child(root.contents, name).at && again == 0
    {
      hide Decode, SlotOf, WellNamed, GraphOf, Locate, LocateIn, Child, NameAt, BodyAt;
      ghost var c := Child(root.contents, name);
      OpenPathOf(root, name);
      RootIsThere(G(), root);
      LocateFromRoot(root, Nil, root, [SLASH] + name + [SLASH]);
      LocateFromRoot(root, Nil, root, [SLASH] + name);
      ghost var t := table;
      ChildIsThere(G(), root.contents, root.at, name);
      HereIsEntry(G(), c, root.at);
      h := Aquire([SLASH] + name + [SLASH], 0, root, Nil, 0);
      var was := Release(h);
      FlippedStaysRooted(t, table, disk, root, h);
      again := Aquire([SLASH] + name, 0, root, Nil, 0);
    }

    /** fs_get_size, for an entry with at most one extent. */
    method GetSize(h: nat, ghost t: Tree<nat>, ghost parent: nat) returns (sz: nat)
      requires Rep(G(), t, parent) && !t.Nil? && h == t.at && |Contents(t)| <= INT_MAX
      ensures sz == |Contents(t)|
    {
      hide Decode, SlotOf, Read, NameAt, ExtentSize, UnitsFor, LastBytes, GraphOf;
      NodesResolve(table, disk, h);
      var x := Resolve(h);
      sz := 0;
      if x.kind == NT_FILE && x.first != 0 {
        NodesResolve(table, disk, x.first);
        var d := Resolve(x.first);
        SizeExact(|t.body.value|, d);
        sz := ExtentSize(d);
      }
    }

    /** fs_read, for an entry with at most one extent: how many blocks were read, and what they held. */
    method ReadBlocks(h: nat, blMax: nat, blOffset: nat, ghost t: Tree<nat>, ghost parent: nat)
      returns (n: nat, buf: seq<Byte>)
      requires Rep(G(), t, parent) && !t.Nil? && h == t.at && (t.File? && t.body.None? ==> blMax == 0)
      ensures !t.File? || blMax == 0 ==> n == 0 && buf == []
      ensures t.File? && blMax > 0 ==>
                && var x := G().nodes[G().nodes[h].first];
                && n == BlocksRead(x.blocks, blMax, blOffset)
                   && buf == Read(disk, (x.lba + blOffset) * BLOCK, n * BLOCK)
    {
      hide Decode, SlotOf, NameAt, ExtentSize, UnitsFor, LastBytes, GraphOf;
      NodesResolve(table, disk, h);
      var x := Resolve(h);
      n, buf := 0, [];
      if x.kind == NT_FILE && blMax > 0 {
        NodesResolve(table, disk, x.first);
        var d := Resolve(x.first);
        var sz := d.blocks;
        if sz >= blOffset {
          sz := if blMax > sz then sz else blMax;
          var off := d.lba + blOffset;
          buf := Read(disk, off * BLOCK, sz * BLOCK);
          n := sz;
        }
      }
    }

    /** read_file of the start program: find, size, read, release. */
    method ReadFile(fn: seq<Byte>, ghost root: Tree<nat>) returns (sz: nat, buf: seq<Byte>)
      requires NoNul(fn) && Rooted(table, disk, root)
      requires var w := Locate(root, Nil, fn); w.Found? ==> |Contents(w.t)| <= INT_MAX
      modifies this
      ensures FileRead(old(G()), disk, old(table), table, Locate(root, Nil, fn), sz, buf)
    {
      hide Decode, SlotOf, NameAt, ExtentSize, UnitsFor, LastBytes, GraphOf, Locate, LocateIn, Rep, Read,
        WellNamedBelow, FileRead, Flipped, BlocksRead;
      ghost var where, table0, g := Locate(root, Nil, fn), table, G();
      sz, buf := 0, [];
      RootIsThere(G(), root);
      ghost var q := LocatedIsThere(G(), root, Nil, 0, fn);
      if !where.Nowhere? { HereIsEntry(G(), where.t, q); }
      var h := Aquire(fn, 0, root, Nil, 0);
      if h == 0 {
        NothingRead(g, disk, table0, table, where, h);
        return;
      }
      ghost var t := where.t;
      NodesResolve(table, disk, h);
      sz := GetSize(h, t, q);
      var bl := if sz % BLOCK == 0 then sz / BLOCK else sz / BLOCK + 1;
      SizeInBlocks(sz);
      var n;
      n, buf := ReadBlocks(h, bl, 0, t, q);
      if t.File? && bl > 0 { WholeFile(table, disk, t, q, buf); }
      ghost var table1 := table;
      var was := Release(h);
      SomethingRead(g, disk, table0, table1, table, where, h, sz, buf);
    }
  }

  /** The table with the lock bit of node p flipped. */
  function Flipped(t: Table, p: nat): Table
    requires Resolvable(p)
  {
    var b := t[SLOT_BYTES * p];
    t[SLOT_BYTES * p := if b >= LOCK then b - LOCK else b + LOCK]
  }

  /** A node's lock was free and is taken now, or it was taken and the result is null. */
  ghost predicate LockTaken(t: Table, t': Table, p: nat, h: nat) {
    && Resolvable(p)
    && if t[SLOT_BYTES * p] >= LOCK then h == 0 && t' == t
       else h == p && t' == t[SLOT_BYTES * p := t[SLOT_BYTES * p] + LOCK]
  }

  /** What acquiring gives and does, by what the path denotes. */
  ghost predicate Acquired(t: Table, t': Table, w: Where, h: nat) {
    match w
    case Nowhere => h == 0 && t' == t
    case Ends(u) => !u.Nil? && h == u.at && t' == t
    case Found(u) => !u.Nil? && LockTaken(t, t', u.at, h)
  }

  /** A file's bytes; directories and indirects have none. */
  function Contents<L>(t: Tree<L>): seq<Byte> {
    if t.File? && t.body.Some? then t.body.value else []
  }

  /** Blocks that fs_read reports, of an extent of `blocks`. */
  function BlocksRead(blocks: nat, blMax: nat, blOffset: nat): nat {
    if blocks < blOffset then 0 else if blMax > blocks then blocks else blMax
  }

  /** Reading stays inside the extent exactly if the offset leaves room for what is read: from the extent's
      start always, and past its end nothing is read. */
  lemma ReadsOwnBlocksIff(blocks: nat, blMax: nat, blOffset: nat)
    requires blMax > 0
    ensures blocks < blOffset ==> BlocksRead(blocks, blMax, blOffset) == 0
    ensures blOffset <= blocks ==>
              (blOffset + BlocksRead(blocks, blMax, blOffset) <= blocks <==>
               blOffset == 0 || blMax <= blocks - blOffset || blocks == 0)
    ensures var n := BlocksRead(blocks, blMax, 0); n <= blocks && n <= blMax && (n == blocks || n == blMax)
  {
  }

  // ----- acquiring and releasing -----

  /** A path with nothing after its last slash. */
  predicate EndsOpen(fn: seq<Byte>) {
    fn == [] || fn[|fn| - 1] == 47
  }

  /** Only such a path ends at a directory itself; every other one ends at a named entry. */
  lemma {:induction false} LastCharDecides(root: Tree<nat>, here: Tree<nat>, fn: seq<Byte>)
    ensures Locate(root, here, fn).Ends? ==> EndsOpen(fn)
    ensures Locate(root, here, fn).Found? ==> !EndsOpen(fn)
    decreases |fn|
  {
    hide Child, Component, Locate, LocateIn;
    var slash := fn != [] && fn[0] == SLASH;
    var dir, rest := if slash then root else here, if slash then fn[1..] else fn;
    LocateStarts(root, here, fn);
    LocateSteps(root, dir, rest);
    if rest != [] && dir.Dir? {
      assert fn[|fn| - 1] == rest[|rest| - 1];
      var comp := Component(rest);
      var c := Child(dir.contents, comp);
      if |comp| == |rest| {
        assert comp[|comp| - 1] in comp && comp == rest;
      } else if c.Dir? {
        LastCharDecides(root, c, rest[|comp| + 1..]);
      }
    }
  }

  /** After acquiring and releasing, the table is the old one if and only if the path names an entry;
      a directory handed out for a path that ends open is locked by the release. */
  lemma ReleaseRestoresIff(t: Table, t1: Table, root: Tree<nat>, here: Tree<nat>, fn: seq<Byte>, h: nat)
    requires Acquired(t, t1, Locate(root, here, fn), h) && h != 0 && Resolvable(h)
    ensures Flipped(t1, h) == t <==> !EndsOpen(fn)
    ensures EndsOpen(fn) ==> Flipped(t1, h) == Flipped(t, h)
  {
    LastCharDecides(root, here, fn);
    assert Flipped(t, h)[SLOT_BYTES * h] != t[SLOT_BYTES * h];
  }

  /** For instance: a directory below the root, once acquired with a slash behind its name and
      released, cannot be acquired by its name any more. */
  lemma OpenPathOf(root: Tree<nat>, name: Name)
    requires root.Dir? && Mentionable(name) && Child(root.contents, name).Dir?
    ensures Locate(root, root, [SLASH] + name + [SLASH]) == Ends(Child(root.contents, name))
    ensures Locate(root, root, [SLASH] + name) == Found(Child(root.contents, name))
  {
    hide Child, Locate, LocateIn, Component;
    var c, open, plain := Child(root.contents, name), name + [SLASH], name;
    assert [SLASH] + name + [SLASH] == [SLASH] + open;
    RestartOrEnd(root, root, open);
    RestartOrEnd(root, root, plain);
    RestartOrEnd(root, c, []);
    assert open[..|name|] == name && plain[..|name|] == name;
    ComponentEnds(open, |name|);
    ComponentEnds(plain, |name|);
    assert open[|name| + 1..] == [];
    assert open[|name| + 1..] == [];
    StepDown(root, root, open, name);
    StepDown(root, root, plain, name);
  }

  /** One step of a lookup, by the path's first component. */
  lemma StepDown(root: Tree<nat>, dir: Tree<nat>, fn: seq<Byte>, comp: Name)
    requires dir.Dir? && fn != [] && comp == Component(fn)
    ensures var c := Child(dir.contents, comp);
            LocateIn(root, dir, fn)
            == if c.Nil? then Nowhere else if |comp| == |fn| then Found(c)
               else if !c.Dir? then Nowhere else Locate(root, c, fn[|comp| + 1..])
  {
    hide Child, Component;
  }

  lemma RootIsThere(g: Graph, root: Tree<nat>)
    requires Rep(g, root, 0) && root.Dir?
    ensures Rep(g, Nil, 0) && WellNamedBelow<nat>(Nil) && root.at != 0
  {
    hide NameAt, BodyAt;
  }

  /** What a lookup finds is represented. */
  lemma {:induction false} LocatedIsThere(g: Graph, root: Tree<nat>, here: Tree<nat>, parent: nat,
                                          fn: seq<Byte>) returns (q: nat)
    requires Rep(g, root, 0) && root.Dir? && WellNamedBelow(root) && Rep(g, here, parent) && WellNamedBelow(here)
    ensures match Locate(root, here, fn) case Nowhere => true case Ends(t) => Rep(g, t, q) case Found(t) => Rep(g, t, q)
    ensures !Locate(root, here, fn).Nowhere? ==> !Locate(root, here, fn).t.Nil?
    ensures Locate(root, here, fn).Ends? && (here.Nil? || here.Dir?) ==> Locate(root, here, fn).t.Dir?
    ensures !Locate(root, here, fn).Nowhere? ==>
              Ptrs(g, Locate(root, here, fn).t, q) <= Ptrs(g, root, 0) + Ptrs(g, here, parent)
    decreases |fn|
  {
    hide NameAt, BodyAt, Component, Child, NamePtrs;
    var slash := fn != [] && fn[0] == SLASH;
    var dir, rest := if slash then root else here, if slash then fn[1..] else fn;
    q := if slash then 0 else parent;
    if rest != [] && dir.Dir? {
      var comp := Component(rest);
      var c := Child(dir.contents, comp);
      ChildIsThere(g, dir.contents, dir.at, comp);
      q := dir.at;
      if !c.Nil? && |comp| != |rest| && c.Dir? {
        q := LocatedIsThere(g, root, c, dir.at, rest[|comp| + 1..]);
      }
    }
  }

  lemma SizeInBlocks(n: nat)
    ensures UnitsFor(n) == (if n % BLOCK == 0 then n / BLOCK else n / BLOCK + 1)
    ensures UnitsFor(n) == 0 <==> n == 0
  {
  }

  /** What read_file gives and does, by what the path denotes. */
  ghost predicate FileRead(g: Graph, disk: Disk, t: Table, t': Table, w: Where, sz: nat, buf: seq<Byte>) {
    match w
    case Nowhere => sz == 0 && t' == t
    case Ends(u) => sz == 0 && !u.Nil? && Resolvable(u.at) && t' == Flipped(t, u.at)
    case Found(u) =>
      && t' == t && !u.Nil? && Resolvable(u.at)
      && if t[SLOT_BYTES * u.at] >= LOCK then sz == 0
         else sz == |Contents(u)| <= |buf| && buf[..sz] == Contents(u) && BlocksOf(g, disk, u, buf)
  }

  /** All blocks of the entry's extent, if it has one. */
  ghost predicate BlocksOf(g: Graph, disk: Disk, u: Tree<nat>, buf: seq<Byte>) {
    if Contents(u) == [] then buf == []
    else
      !u.Nil? && u.at in g.nodes && g.nodes[u.at].Entry?
      && var p := g.nodes[u.at].first;
         p in g.nodes && g.nodes[p].Data? && buf == Read(disk, g.nodes[p].lba * BLOCK, g.nodes[p].blocks * BLOCK)
  }

  lemma NothingRead(g: Graph, disk: Disk, t: Table, t': Table, w: Where, h: nat)
    requires Acquired(t, t', w, h) && h == 0 && (w.Ends? ==> !w.t.Nil? && w.t.at != 0)
    ensures FileRead(g, disk, t, t', w, 0, [])
  {
  }

  lemma FlippedBack(t: Table, p: nat)
    requires Resolvable(p) && t[SLOT_BYTES * p] < LOCK
    ensures Flipped(t[SLOT_BYTES * p := t[SLOT_BYTES * p] + LOCK], p) == t
  {
  }

  lemma SomethingRead(g: Graph, disk: Disk, t: Table, t1: Table, t2: Table, w: Where, h: nat, sz: nat, buf: seq<Byte>)
    requires Acquired(t, t1, w, h) && h != 0 && Resolvable(h) && t2 == Flipped(t1, h)
    requires w.Ends? ==> sz == 0
    requires w.Found? ==> sz == |Contents(w.t)| <= |buf| && buf[..sz] == Contents(w.t) && BlocksOf(g, disk, w.t, buf)
    ensures FileRead(g, disk, t, t2, w, sz, buf)
  {
    hide Flipped, Contents, BlocksOf;
    if w.Found? { FlippedBack(t, h); }
  }

  /** All blocks of a file from offset 0: its bytes come first. */
  lemma WholeFile(table: Table, disk: Disk, t: Tree<nat>, parent: nat, buf: seq<Byte>)
    requires Rep(GraphOf(table, disk), t, parent) && t.File? && t.body.Some? && |t.body.value| <= INT_MAX
    requires var g := GraphOf(table, disk);
             var x := g.nodes[g.nodes[t.at].first];
             buf == Read(disk, (x.lba + 0) * BLOCK, BlocksRead(x.blocks, UnitsFor(|t.body.value|), 0) * BLOCK)
    ensures |t.body.value| <= |buf| && buf[..|t.body.value|] == t.body.value
    ensures |t.body.value| > 0 ==> BlocksOf(GraphOf(table, disk), disk, t, buf)
  {
    hide Read, NameAt, UnitsFor, LastBytes, Decode, SlotOf, ExtentSize;
    var g, n := GraphOf(table, disk), |t.body.value|;
    var x := g.nodes[g.nodes[t.at].first];
    SizeExact(n, x);
    BlocksHold(n);
    PartOfRead(disk, x.lba * BLOCK, x.blocks * BLOCK, 0, n);
    assert g.files[g.nodes[t.at].first] == Read(disk, x.lba * BLOCK, ExtentSize(x));
    assert BlocksRead(x.blocks, UnitsFor(n), 0) == x.blocks;
  }

  // ----- normalised paths -----

  /** A path with one slash before each name and nothing else. */
  function Join(names: seq<Name>): seq<Byte> {
    if names == [] then [] else [47] + names[0] + Join(names[1..])
  }

  /** Plain lookup by names. */
  function Follow<L>(t: Tree<L>, names: seq<Name>): Tree<L>
    requires names != []
    decreases |names|
  {
    var c := Child(t, names[0]);
    if |names| == 1 then c else if c.Dir? then Follow(c.contents, names[1..]) else Nil
  }

  lemma {:induction false} FollowsNames(root: Tree<nat>, dir: Tree<nat>, names: seq<Name>)
    requires dir.Dir? && names != [] && forall n :: n in names ==> Mentionable(n)
    ensures LocateIn(root, dir, names[0] + Join(names[1..]))
            == if Follow(dir.contents, names).Nil? then Nowhere else Found(Follow(dir.contents, names))
    decreases |names|
  {
    hide Child;
    var fn, name := names[0] + Join(names[1..]), names[0];
    assert name in names;
    assert fn[..|name|] == name;
    ComponentEnds(fn, |name|);
    var c := Child(dir.contents, name);
    if |names| > 1 && c.Dir? {
      var more := names[1..];
      assert fn[|name| + 1..] == more[0] + Join(more[1..]);
      assert more[0] in names;
      FollowsNames(root, c, more);
      assert Locate(root, c, fn[|name| + 1..]) == LocateIn(root, c, fn[|name| + 1..]);
    }
  }

  /** On a normalised path other than the root's, lookup is plain lookup by names. */
  lemma NormalPath(root: Tree<nat>, here: Tree<nat>, names: seq<Name>)
    requires root.Dir? && names != [] && forall n :: n in names ==> Mentionable(n)
    ensures Locate(root, here, Join(names))
            == if Follow(root.contents, names).Nil? then Nowhere else Found(Follow(root.contents, names))
  {
    FollowsNames(root, root, names);
    assert Join(names)[1..] == names[0] + Join(names[1..]);
  }

  /** What two slashes in a row mean, after a first part that does not end in one: if the first part leads
      to a directory the lookup starts again at the root, and else there is nothing. */
  lemma {:induction false} DoubleSlashIs(root: Tree<nat>, here: Tree<nat>, pre: seq<Byte>, rest: seq<Byte>)
    requires pre != [] && pre[|pre| - 1] != SLASH
    ensures Locate(root, here, pre + [SLASH, SLASH] + rest)
            == if Locate(root, here, pre + [SLASH]).Ends? then LocateIn(root, root, rest) else Nowhere
    decreases |pre|, 1
  {
    hide LocateIn;
    if pre[0] == SLASH {
      assert (pre + [SLASH, SLASH] + rest)[1..] == pre[1..] + [SLASH, SLASH] + rest;
      assert (pre + [SLASH])[1..] == pre[1..] + [SLASH];
      DoubleSlashIn(root, root, pre[1..], rest);
    } else {
      DoubleSlashIn(root, here, pre, rest);
    }
  }

  lemma {:induction false} DoubleSlashIn(root: Tree<nat>, dir: Tree<nat>, p: seq<Byte>, rest: seq<Byte>)
    requires p != [] && p[|p| - 1] != SLASH
    ensures LocateIn(root, dir, p + [SLASH, SLASH] + rest)
            == if LocateIn(root, dir, p + [SLASH]).Ends? then LocateIn(root, root, rest) else Nowhere
    decreases |p|, 0
  {
    hide Child, Component, Locate, LocateIn;
    var fn, fn1, comp := p + [SLASH, SLASH] + rest, p + [SLASH], Component(p);
    var k := |comp|;
    LocateSteps(root, dir, fn);
    LocateSteps(root, dir, fn1);
    if dir.Dir? {
      assert fn[..k] == p[..k] == fn1[..k] == comp;
      ComponentEnds(fn, k);
      ComponentEnds(fn1, k);
      if k == |p| {
        assert fn[k + 1..] == [SLASH] + rest && fn1[k + 1..] == [] && ([SLASH] + rest)[1..] == rest;
        RestartOrEnd(root, Child(dir.contents, comp), rest);
      } else {
        assert fn[k + 1..] == p[k + 1..] + [SLASH, SLASH] + rest && fn1[k + 1..] == p[k + 1..] + [SLASH];
        if Child(dir.contents, comp).Dir? { DoubleSlashIs(root, Child(dir.contents, comp), p[k + 1..], rest); }
      }
    }
  }

  lemma RestartOrEnd(root: Tree<nat>, c: Tree<nat>, rest: seq<Byte>)
    ensures Locate(root, c, [SLASH] + rest) == LocateIn(root, root, rest)
    ensures c.Dir? ==> Locate(root, c, []) == Ends(c)
  {
    assert ([SLASH] + rest)[1..] == rest;
    assert Locate(root, c, []) == LocateIn(root, c, []);
  }

  /** A path that begins with two slashes denotes nothing. */
  lemma LeadingSlashesFail(root: Tree<nat>, here: Tree<nat>, rest: seq<Byte>)
    requires root.Dir? && WellNamed(root.contents)
    ensures Locate(root, here, [SLASH, SLASH] + rest) == Nowhere
  {
    hide Child;
    var fn := [SLASH] + rest;
    assert ([SLASH, SLASH] + rest)[1..] == fn && Component(fn) == [];
    NoEmptyName(root.contents);
    StepDown(root, root, fn, []);
  }

  lemma {:induction false} NoEmptyName(t: Tree<nat>)
    requires WellNamed(t)
    ensures Child(t, []).Nil?
  {
    if !t.Nil? { NoEmptyName(t.next); }
  }

  /** An entry among its siblings. */
  ghost predicate Among(u: Tree<nat>, t: Tree<nat>) {
    !t.Nil? && (u == t || Among(u, t.next))
  }

  ghost predicate DistinctNames(t: Tree<nat>) {
    !t.Nil? ==> (forall u :: Among(u, t.next) ==> u.Nil? || u.name != t.name) && DistinctNames(t.next)
  }

  /** With distinct names, looking up an entry's name gives that entry. */
  lemma {:induction false} ChildIsTheOne(t: Tree<nat>, u: Tree<nat>)
    requires DistinctNames(t) && Among(u, t) && !u.Nil?
    ensures Child(t, u.name) == u
  {
    if u != t { ChildIsTheOne(t.next, u); }
  }

  ghost predicate WellNamedBelow<L>(t: Tree<L>) {
    t.Dir? ==> WellNamed(t.contents)
  }

  /** The image's header points to the directory root, and all names below it can be mentioned. */
  ghost predicate Rooted(table: Table, disk: Disk, root: Tree<nat>) {
    root.Dir? && Rep(GraphOf(table, disk), root, 0) && WellNamedBelow(root) && RootOf(table) == root.at
  }

  lemma RootParts(table: Table, disk: Disk, root: Tree<nat>)
    requires Rooted(table, disk, root)
    ensures Rep(GraphOf(table, disk), root, 0) && root.Dir? && WellNamedBelow(root)
  {
    hide Rep, GraphOf;
  }

  lemma AquiredIs(t: Table, t1: Table, w: Where, h: nat)
    requires Acquired(t, t1, w, h) && (!w.Nowhere? ==> !w.t.Nil? && w.t.at != 0)
    ensures h == 0 ==> t1 == t && !w.Ends?
    ensures h != 0 ==> !w.Nowhere? && h == w.t.at
  {
  }

  lemma LocateStarts(root: Tree<nat>, here: Tree<nat>, fn: seq<Byte>)
    ensures Locate(root, here, fn)
            == if CharAt(fn, 0) == SLASH then LocateIn(root, root, fn[1..]) else LocateIn(root, here, fn)
  {
  }

  lemma LocateSteps(root: Tree<nat>, dir: Tree<nat>, fn: seq<Byte>)
    ensures dir.Nil? ==> LocateIn(root, dir, fn) == Nowhere
    ensures !dir.Nil? && fn == [] ==> LocateIn(root, dir, fn) == Ends(dir)
    ensures !dir.Nil? && fn != [] && !dir.Dir? ==> LocateIn(root, dir, fn) == Nowhere
    ensures dir.Dir? && fn != [] ==>
              var comp, c := Component(fn), Child(dir.contents, Component(fn));
              LocateIn(root, dir, fn)
              == if c.Nil? then Nowhere else if |comp| == |fn| then Found(c)
                 else if !c.Dir? then Nowhere else Locate(root, c, fn[|comp| + 1..])
  {
  }

  lemma NullIsNil(g: Graph, t: Tree<nat>, parent: nat)
    requires Rep(g, t, parent)
    ensures Head(t) == 0 <==> t.Nil?
  {
    hide NameAt, BodyAt;
  }

  lemma NodesResolve(table: Table, disk: Disk, p: nat)
    requires p in GraphOf(table, disk).nodes
    ensures Resolvable(p)
  {
  }

  lemma HereIsEntry(g: Graph, t: Tree<nat>, parent: nat)
    requires Rep(g, t, parent) && !t.Nil?
    ensures t.at != 0 && t.at in g.nodes && g.nodes[t.at].Entry? && NameAt(g, g.nodes[t.at].name, t.name)
    ensures g.nodes[t.at].kind == NT_DIR <==> t.Dir?
    ensures g.nodes[t.at].next == Head(t.next) && Rep(g, t.next, parent)
  {
    hide NameAt, BodyAt;
  }

  lemma DirIs(g: Graph, t: Tree<nat>, parent: nat)
    requires Rep(g, t, parent) && t.Dir?
    ensures t.at in g.nodes && g.nodes[t.at].Entry? && g.nodes[t.at].first == Head(t.contents)
            && Rep(g, t.contents, t.at)
  {
    hide NameAt, BodyAt;
  }

  lemma NoChild(name: Name)
    ensures Child<nat>(Nil, name) == Nil
  {
  }

  lemma ChildStep(t: Tree<nat>, name: Name)
    requires !t.Nil? && WellNamed(t)
    ensures Child(t, name) == if t.name == name then t else Child(t.next, name)
    ensures Mentionable(t.name) && NoNul(t.name) && WellNamed(t.next)
  {
  }

  lemma BelowChild(t: Tree<nat>)
    requires WellNamed(t)
    ensures WellNamedBelow(t)
  {
  }

  lemma LockKeepsGraph(t: Table, disk: Disk, p: nat, b: Byte)
    requires Resolvable(p) && b % 16 == t[SLOT_BYTES * p] % 16
    ensures GraphOf(t[SLOT_BYTES * p := b], disk) == GraphOf(t, disk)
  {
    hide Decode, Read, ExtentSize;
    var t' := t[SLOT_BYTES * p := b];
    forall q: nat | Resolvable(q)
      ensures Decode(SlotOf(t', q)) == Decode(SlotOf(t, q))
    {
      if q == p {
        LockBitIsNotDecoded(SlotOf(t, p), b);
        assert SlotOf(t', p) == SlotOf(t, p)[0 := b];
      } else {
        assert SlotOf(t', q) == SlotOf(t, q);
      }
    }
    assert NodesOf(t') == NodesOf(t);
  }

  lemma LockedStaysRooted(t: Table, t': Table, disk: Disk, root: Tree<nat>)
    requires exists p, h :: LockTaken(t, t', p, h)
    requires Rooted(t, disk, root)
    ensures GraphOf(t', disk) == GraphOf(t, disk) && Rooted(t', disk, root)
  {
    hide FromLe, GraphOf, Rep;
    var p, h :| LockTaken(t, t', p, h);
    if t' != t {
      LockKeepsGraph(t, disk, p, t[SLOT_BYTES * p] + LOCK);
      assert t'[4..8] == t[4..8];
    }
  }

  lemma FlippedStaysRooted(t: Table, t': Table, disk: Disk, root: Tree<nat>, p: nat)
    requires Rooted(t, disk, root) && Resolvable(p) && t' == Flipped(t, p) && GraphOf(t', disk) == GraphOf(t, disk)
    ensures Rooted(t', disk, root)
  {
    hide FromLe, GraphOf, Rep;
    assert t'[4..8] == t[4..8];
  }

  /** An absolute path does not depend on where one is. */
  lemma LocateFromRoot(root: Tree<nat>, here: Tree<nat>, there: Tree<nat>, fn: seq<Byte>)
    requires fn != [] && fn[0] == SLASH
    ensures Locate(root, here, fn) == Locate(root, there, fn)
  {
  }

  /** The first chunk of a name, as a string node holds it. */
  lemma ChunkOf(g: Graph, p: nat, s: Name)
    requires NameAt(g, p, s) && NoNul(s)
    ensures g.nodes[p].size <= |s| && g.nodes[p].chars[..g.nodes[p].size] == s[..g.nodes[p].size]
    ensures NoNul(s[..g.nodes[p].size])
    ensures g.nodes[p].next == 0 ==> g.nodes[p].size == |s|
    ensures g.nodes[p].next != 0 ==>
              g.nodes[p].size == CHUNK && |s| > CHUNK && NameAt(g, g.nodes[p].next, s[CHUNK..]) && NoNul(s[CHUNK..])
  {
    var x := g.nodes[p];
    if |s| > CHUNK { assert x.chars[..CHUNK] == x.chars; }
  }

  lemma ChunkNeeded(fn: seq<Byte>, s: Name, i: nat, k: nat)
    requires i + k <= |s|
    ensures s <= fn ==> HasAt(fn, i, s[i..][..k])
  {
    if s <= fn { assert fn[i..i + k] == s[i..][..k]; }
  }

  lemma ChunkThere(fn: seq<Byte>, s: Name, i: nat, k: nat)
    requires i + k <= |s| && i <= |fn| && s[..i] == fn[..i] && HasAt(fn, i, s[i..][..k])
    ensures i + k <= |fn| && s[..i + k] == fn[..i + k]
  {
    assert s[..i + k] == s[..i] + s[i..][..k];
    assert fn[..i + k] == fn[..i] + fn[i..i + k];
  }
}
