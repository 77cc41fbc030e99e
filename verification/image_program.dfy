/** The image builder as a whole: from the text of a description to the image. */
module ImageProgram {
  import opened Bytes
  import opened Options
  import opened ByteStores
  import opened ImageFormat
  import opened ImageBuilder
  import opened ImageWriter
  import opened Volumes
  import opened ImageRoundTrip
  import opened PathLookup
  import F3sParser
  import F3sPrinter
  import Numbers

  /** What the host's file system holds, by path. */
  type Host = map<string, seq<Byte>>

  function BytesOf(s: string): (b: Name)
    ensures |b| == |s|
  {
    if s == "" then [] else [s[0] as int % 256] + BytesOf(s[1..])
  }

  /** A parsed node whose name and load have been set, so that the builder reads nothing else. */
  predicate Complete(n: F3sParser.PNode)
    decreases n, 1
  {
    && n.name.Some?
    && match n.load
       case Unset => false
       case Actual(_) => n.kind.FileKind?
       case Dest(_) => n.kind.IndirectKind?
       case Contents(entries) => n.kind.DirKind? && AllComplete(entries)
  }

  predicate AllComplete(ns: seq<F3sParser.PNode>)
    decreases ns, 0
  {
    ns != [] ==> Complete(ns[0]) && AllComplete(ns[1..])
  }

  /** What the builder takes from a parsed node, and from the host for a file. */
  function TreeOf(n: F3sParser.PNode, next: Tree<()>, host: Host): Tree<()>
    requires Complete(n)
    decreases n, 1
  {
    var name, owner := BytesOf(n.name.value), n.owner % U32_LIMIT;
    match n.load
    case Actual(path) => File((), name, owner, if path in host then Some(host[path]) else None, next)
    case Dest(path) => Indirect((), name, owner, BytesOf(path), next)
    case Contents(entries) => Dir((), name, owner, ListOf(entries, host), next)
  }

  function ListOf(ns: seq<F3sParser.PNode>, host: Host): Tree<()>
    requires AllComplete(ns)
    decreases ns, 0
  {
    if ns == [] then Nil else TreeOf(ns[0], ListOf(ns[1..], host), host)
  }

  // ----- the tree that a parsed node stands for -----

  function Count(t: Tree<()>): nat {
    if t.Nil? then 0 else 1 + Count(t.next)
  }

  function EntryAt(t: Tree<()>, i: nat): (e: Tree<()>)
    requires i < Count(t)
    ensures !e.Nil?
  {
    if i == 0 then t else EntryAt(t.next, i - 1)
  }

  predicate SameText(b: Name, s: string) {
    |b| == |s| && forall k :: 0 <= k < |s| ==> b[k] == s[k] as int % 256
  }

  /** The entry is what the node says: its name, its owner in 32 bits, and the file that the host has at its
      path, its destination, or its entries. */
  ghost predicate Matches(t: Tree<()>, n: F3sParser.PNode, host: Host)
    decreases n, 1
  {
    && !t.Nil? && n.name.Some? && SameText(t.name, n.name.value)
    && t.owner < 0x1_0000_0000 && (t.owner - n.owner) % 0x1_0000_0000 == 0
    && match n.load
       case Unset => false
       case Actual(path) => t.File? && t.body == if path in host then Some(host[path]) else None
       case Dest(path) => t.Indirect? && SameText(t.dest, path)
       case Contents(entries) => t.Dir? && AllMatch(t.contents, entries, host)
  }

  /** As many entries as nodes, in the same order. */
  ghost predicate AllMatch(t: Tree<()>, ns: seq<F3sParser.PNode>, host: Host)
    decreases ns, 0
  {
    Count(t) == |ns| && forall i :: 0 <= i < |ns| ==> Matches(EntryAt(t, i), ns[i], host)
  }

  lemma {:induction false} BytesAre(s: string)
    ensures SameText(BytesOf(s), s)
  {
    if s != "" { BytesAre(s[1..]); }
  }

  lemma {:induction false} TreeMatches(n: F3sParser.PNode, next: Tree<()>, host: Host)
    requires Complete(n)
    ensures Matches(TreeOf(n, next, host), n, host) && TreeOf(n, next, host).next == next
    decreases n, 1
  {
    hide BytesOf, SameText, ListOf, AllMatch, AllComplete;
    BytesAre(n.name.value);
    InUnsigned(n.owner);
    match n.load
    case Actual(_) =>
    case Dest(path) => BytesAre(path);
    case Contents(entries) => ListMatches(entries, host);
  }

  lemma InUnsigned(v: int)
    ensures 0 <= v % U32_LIMIT < 0x1_0000_0000 && (v % U32_LIMIT - v) % 0x1_0000_0000 == 0
  {
    var q := v / 0x1_0000_0000;
    assert v % U32_LIMIT - v == -q * 0x1_0000_0000;
  }

  lemma {:induction false} ListMatches(ns: seq<F3sParser.PNode>, host: Host)
    requires AllComplete(ns)
    ensures AllMatch(ListOf(ns, host), ns, host)
    decreases ns, 0
  {
    hide Matches, TreeOf, Complete;
    if ns != [] {
      var t, rest := ListOf(ns, host), ListOf(ns[1..], host);
      TreeMatches(ns[0], rest, host);
      assert !t.Nil? by { MatchIsEntry(t, ns[0], host); }
      ListMatches(ns[1..], host);
      forall i | 0 <= i < |ns|
        ensures Matches(EntryAt(t, i), ns[i], host)
      {
        if i > 0 { assert EntryAt(t, i) == EntryAt(rest, i - 1) && ns[i] == ns[1..][i - 1]; }
      }
    }
  }

  lemma MatchIsEntry(t: Tree<()>, n: F3sParser.PNode, host: Host)
    requires Matches(t, n, host)
    ensures !t.Nil? && n.name.Some? && SameText(t.name, n.name.value)
  {
  }

  // ----- paths through parsed nodes -----

  predicate ByteText(s: string) {
    forall k :: 0 <= k < |s| ==> s[k] as int < 256
  }

  predicate ByteNamed(n: F3sParser.PNode)
    decreases n, 1
  {
    (n.name.Some? ==> ByteText(n.name.value)) && (n.load.Contents? ==> ByteNames(n.load.entries))
  }

  predicate ByteNames(ns: seq<F3sParser.PNode>)
    decreases ns, 0
  {
    forall i :: 0 <= i < |ns| ==> ByteNamed(ns[i])
  }

  /** The first node of that name, or |ns|. */
  function Named(ns: seq<F3sParser.PNode>, name: string): (k: nat)
    ensures k <= |ns| && (k < |ns| ==> ns[k].name == Some(name))
    ensures forall i :: 0 <= i < k ==> ns[i].name != Some(name)
  {
    if ns == [] || ns[0].name == Some(name) then 0 else 1 + Named(ns[1..], name)
  }

  /** The node that a path of names leads to, from directory to directory. */
  function Reach(ns: seq<F3sParser.PNode>, names: seq<string>): Option<F3sParser.PNode>
    requires names != []
    decreases |names|
  {
    var k := Named(ns, names[0]);
    if k == |ns| then None
    else if |names| == 1 then Some(ns[k])
    else if ns[k].load.Contents? then Reach(ns[k].load.entries, names[1..]) else None
  }

  function AllBytes(names: seq<string>): (bs: seq<Name>)
    ensures |bs| == |names| && forall i :: 0 <= i < |bs| ==> bs[i] == BytesOf(names[i])
  {
    if names == [] then [] else [BytesOf(names[0])] + AllBytes(names[1..])
  }

  lemma SameBytes(b: Name, s: string, name: string)
    requires SameText(b, s) && ByteText(s) && ByteText(name)
    ensures b == BytesOf(name) <==> s == name
  {
    BytesAre(name);
    if b == BytesOf(name) {
      forall k | 0 <= k < |s|
        ensures s[k] == name[k]
      {
        assert s[k] as int % 256 == name[k] as int % 256;
      }
    }
  }

  /** The entries from i on: the first of a name among them. */
  lemma {:induction false} ChildIsNamed(t: Tree<()>, ns: seq<F3sParser.PNode>, host: Host, name: string)
    requires AllMatch(t, ns, host) && ByteNames(ns) && ByteText(name)
    ensures var k := Named(ns, name);
            Child(t, BytesOf(name)) == if k == |ns| then Nil else EntryAt(t, k)
    decreases |ns|
  {
    hide Matches, BytesOf, SameText, ByteText;
    if ns != [] {
      assert EntryAt(t, 0) == t;
      MatchIsEntry(t, ns[0], host);
      SameBytes(t.name, ns[0].name.value, name);
      if ns[0].name != Some(name) {
        forall i | 0 <= i < |ns[1..]|
          ensures Matches(EntryAt(t.next, i), ns[1..][i], host)
        {
          assert EntryAt(t, i + 1) == EntryAt(t.next, i) && ns[1..][i] == ns[i + 1];
        }
        ChildIsNamed(t.next, ns[1..], host, name);
      }
    }
  }

  /** A path of names in the tree leads to what the same path leads to in the parse. */
  lemma {:induction false} PathMatches(t: Tree<()>, ns: seq<F3sParser.PNode>, host: Host, names: seq<string>)
    requires AllMatch(t, ns, host) && ByteNames(ns) && names != [] && forall i :: 0 <= i < |names| ==>
             ByteText(names[i])
    ensures match Reach(ns, names)
            case None => Follow(t, AllBytes(names)).Nil?
            case Some(n) => Matches(Follow(t, AllBytes(names)), n, host)
    decreases |names|
  {
    hide BytesOf, SameText, ByteText, Child;
    ChildIsNamed(t, ns, host, names[0]);
    var k := Named(ns, names[0]);
    assert AllBytes(names)[0] == BytesOf(names[0]) && AllBytes(names)[1..] == AllBytes(names[1..]);
    if k < |ns| {
      assert Matches(EntryAt(t, k), ns[k], host);
      if |names| > 1 && ns[k].load.Contents? {
        PathMatches(EntryAt(t, k).contents, ns[k].load.entries, host, names[1..]);
      }
    }
  }

  // ----- the whole program -----

  const NO_PERMS := F3sParser.Perms(F3sParser.PermNone, F3sParser.PermNone, F3sParser.PermNone)

  /** The text is two nodes and space, in any layout, and they mean n and m. */
  ghost predicate Says(text: string, n: F3sParser.PNode, m: F3sParser.PNode) {
    exists w: F3sPrinter.Written, v: F3sPrinter.Written, space: string ::
      && F3sPrinter.WellWritten(w) && F3sPrinter.WellWritten(v) && F3sPrinter.Space(space)
      && F3sPrinter.Meaning(w, NO_PERMS) == n && F3sPrinter.Meaning(v, NO_PERMS) == m
      && text == F3sPrinter.Show(w) + (F3sPrinter.Show(v) + space)
  }

  lemma SaidIsParsed(text: string, n: F3sParser.PNode, m: F3sParser.PNode) returns (rest: string, space: string)
    requires Says(text, n, m)
    ensures F3sParser.ParseNext(text, NO_PERMS) == F3sParser.Parsed(n, rest)
    ensures F3sParser.ParseNext(rest, NO_PERMS) == F3sParser.Parsed(m, space)
    ensures F3sParser.ParseNext(space, NO_PERMS) == F3sParser.AtEnd
  {
    hide F3sParser.ParseFields, F3sPrinter.Show, F3sPrinter.WellWritten, F3sPrinter.Meaning;
    var w, v, s :| F3sPrinter.WellWritten(w) && F3sPrinter.WellWritten(v) && F3sPrinter.Space(s)
                   && F3sPrinter.Meaning(w, NO_PERMS) == n && F3sPrinter.Meaning(v, NO_PERMS) == m
                   && text == F3sPrinter.Show(w) + (F3sPrinter.Show(v) + s);
    rest, space := F3sPrinter.Show(v) + s, s;
    F3sPrinter.NodeReads(w, NO_PERMS, rest);
    F3sPrinter.NodeReads(v, NO_PERMS, space);
    Numbers.SkipsSpace(s, "");
    assert s + "" == s;
  }

  /** The texts meant here are all those that the parser reads as two nodes and then the end. */
  lemma SaidIffParsed(text: string, n: F3sParser.PNode, m: F3sParser.PNode)
    ensures Says(text, n, m)
            <==> exists rest, space :: F3sParser.ParseNext(text, NO_PERMS) == F3sParser.Parsed(n, rest)
                                       && F3sParser.ParseNext(rest, NO_PERMS) == F3sParser.Parsed(m, space)
                                       && F3sParser.ParseNext(space, NO_PERMS) == F3sParser.AtEnd
  {
    hide F3sParser.ParseNext, F3sPrinter.Show, F3sPrinter.WellWritten, F3sPrinter.Meaning, F3sPrinter.Space;
    if Says(text, n, m) {
      var rest, space := SaidIsParsed(text, n, m);
    }
    forall rest, space | F3sParser.ParseNext(text, NO_PERMS) == F3sParser.Parsed(n, rest)
                         && F3sParser.ParseNext(rest, NO_PERMS) == F3sParser.Parsed(m, space)
                         && F3sParser.ParseNext(space, NO_PERMS) == F3sParser.AtEnd
      ensures Says(text, n, m)
    {
      var w := F3sPrinter.NodeIsWritten(text, NO_PERMS);
      var v := F3sPrinter.NodeIsWritten(rest, NO_PERMS);
      F3sPrinter.AtEndIffSpace(space, NO_PERMS);
    }
  }

  /** The description is one of a root and one of what the boot loader needs, which with the node for unused
      space need at most 169 nodes. */
  ghost predicate Describes(root: Tree<()>, predir: Tree<()>) {
    && TopLevel(root, ROOT_NAME) && TopLevel(predir, PREDIR_NAME) && 1 + NodesIn(root) + NodesIn(predir) <= 169
    && FIRST_DATA + BlocksIn(root) + BlocksIn(predir) < 0x1_0000_0000_0000_0000
  }

  /** The builder's main function on a description of two nodes: the image, read by the kernel, is
      what the text says, if and only if its names are short; and it begins as the boot loader wants. */
  method BuildFromText(text: string, host: Host, addr: nat -> nat, ghost n: F3sParser.PNode, ghost m: F3sParser.PNode)
    returns (f: ImageFile)
    requires Says(text, n, m) && Complete(n) && Complete(m) && forall p :: addr(p) < U32_LIMIT
    requires var (t, u) := (TreeOf(n, Nil, host), TreeOf(m, Nil, host));
             (t.Dir? && t.name == ROOT_NAME && Describes(t, u))
                 || (t.Dir? && t.name == PREDIR_NAME && Describes(u, t))
    ensures var (t, u) := (TreeOf(n, Nil, host), TreeOf(m, Nil, host));
            var (root, predir) := if t.name == ROOT_NAME then (t, u) else (u, t);
            && HoldsIfShort(f.disk, RootOf(Read(f.disk, TABLE_AT, BLOCK)), root, addr)
            && HoldsIfShort(f.disk, PredirOf(Read(f.disk, TABLE_AT, BLOCK)), predir, addr)
    ensures Matches(TreeOf(n, Nil, host), n, host) && Matches(TreeOf(m, Nil, host), m, host)
    ensures HeaderReads(f.disk, RootOf(Read(f.disk, TABLE_AT, BLOCK)), PredirOf(Read(f.disk, TABLE_AT, BLOCK)), 1)
  {
    hide HoldsIfShort, NodesIn, BlocksIn, Writable, ShortNames, TreeOf, Complete, F3sParser.ParseNext, Says, Read,
      RootOf, PredirOf, HeaderReads, Matches;
    TreeMatches(n, Nil, host);
    TreeMatches(m, Nil, host);
    ghost var rest, space := SaidIsParsed(text, n, m);
    var p := new F3sParser.Parser(text);
    assert p.Ahead() == text;
    var first := p.ParseNode(NO_PERMS);
    var second := p.ParseNode(NO_PERMS);
    var third := p.ParseNode(NO_PERMS);
    assert first == F3sParser.Node(n) && second == F3sParser.Node(m) && third == F3sParser.NoNode;
    var t, u := TreeOf(first.node, Nil, host), TreeOf(second.node, Nil, host);
    NamesDiffer();
    if t.name == ROOT_NAME {
      f := BuildImage(t, u, true, addr);
    } else {
      f := BuildImage(u, t, false, addr);
    }
  }

  lemma NamesDiffer()
    ensures ROOT_NAME != PREDIR_NAME
  {
  }

  // ----- from a tree to what a program reads -----

  lemma {:induction false} ErasedChild(t: Tree<nat>, name: Name)
    ensures Erase(Child(t, name)) == Child(Erase(t), name)
  {
    if !t.Nil? && t.name != name { ErasedChild(t.next, name); }
  }

  lemma {:induction false} ErasedFollow(t: Tree<nat>, names: seq<Name>)
    requires names != []
    ensures Erase(Follow(t, names)) == Follow(Erase(t), names)
    decreases |names|
  {
    hide Child;
    ErasedChild(t, names[0]);
    var c := Child(t, names[0]);
    if |names| > 1 && c.Dir? { ErasedFollow(c.contents, names[1..]); }
  }

  lemma {:induction false} ErasedNames(t: Tree<nat>)
    ensures WellNamed(Erase(t)) <==> WellNamed(t)
  {
    hide Mentionable;
    match t {
      case Nil => {}
      case File(_, _, _, _, next) => { ErasedNames(next); }
      case Dir(_, _, _, contents, next) => {
        ErasedNames(contents);
        ErasedNames(next);
      }
      case Indirect(_, _, _, _, next) => { ErasedNames(next); }
    }
  }

  lemma {:induction false} ChildFits(t: Tree<()>, name: Name)
    requires Writable(t)
    ensures Writable(Child(t, name))
  {
    if !t.Nil? && t.name != name { ChildFits(t.next, name); }
  }

  lemma {:induction false} FoundFits(t: Tree<()>, names: seq<Name>)
    requires Writable(t) && names != []
    ensures |Contents(Follow(t, names))| <= INT_MAX
    decreases |names|
  {
    hide Child;
    ChildFits(t, names[0]);
    var c := Child(t, names[0]);
    if |names| > 1 && c.Dir? { FoundFits(c.contents, names[1..]); }
  }

  lemma {:induction false} JoinedHasNoNul(names: seq<Name>)
    requires forall n :: n in names ==> Mentionable(n)
    ensures NoNul(Join(names))
  {
    if names != [] {
      assert names[0] in names && NoNul(names[0]);
      JoinedHasNoNul(names[1..]);
    }
  }

  /** What reading the file at a path gives: its bytes, in whole blocks filled up with zeros. */
  ghost predicate GetsFile(t: Tree<()>, sz: nat, buf: seq<Byte>) {
    && sz == |Contents(t)|
    && (t.File? ==> buf == Padded(Contents(t), UnitsFor(sz) * BLOCK))
  }

  lemma ReadIsFile(d: Disk, placed: Tree<nat>, names: seq<Name>, table1: Table, sz: nat, buf: seq<Byte>)
    requires Held(d, placed) && placed.Dir? && WellNamed(placed.contents)
    requires names != [] && forall n :: n in names ==> Mentionable(n)
    requires var table := Read(d, TABLE_AT, BLOCK);
             FileRead(GraphOf(table, d), d, table, table1, Locate(placed, Nil, Join(names)), sz, buf)
    ensures table1 == Read(d, TABLE_AT, BLOCK)
    ensures GetsFile(Erase(Follow(placed.contents, names)), sz, buf)
  {
    hide Read, GraphOf, Locate, Follow, Rep, Padded, UnitsFor, LastBytes, Erase, WellNamed, Flipped, Contents;
    var table := Read(d, TABLE_AT, BLOCK);
    var g, w, u := GraphOf(table, d), Locate(placed, Nil, Join(names)), Follow(placed.contents, names);
    NormalPath(placed, Nil, names);
    RootIsThere(g, placed);
    var q := LocatedIsThere(g, placed, Nil, 0, Join(names));
    ErasedContents(u);
    if w.Found? {
      NilHasNoNodes(g);
      FoundNode(g, u, q);
      assert u.at in Ptrs(g, placed, 0);
      if u.File? { FileIsPadded(d, g, u, q, Ptrs(g, placed, 0), buf); }
    }
  }

  lemma NilHasNoNodes(g: Graph)
    ensures Ptrs(g, Nil, 0) == {}
  {
  }

  lemma ErasedContents(u: Tree<nat>)
    ensures Contents(Erase(u)) == Contents(u) && (Erase(u).File? <==> u.File?)
    ensures u.Nil? ==> Contents(u) == []
  {
  }

  lemma FoundNode(g: Graph, u: Tree<nat>, q: nat)
    requires Rep(g, u, q) && !u.Nil?
    ensures u.at in Ptrs(g, u, q)
  {
    hide NameAt, BodyAt, NamePtrs;
  }

  lemma FileIsPadded(d: Disk, g: Graph, u: Tree<nat>, q: nat, ps: set<nat>, buf: seq<Byte>)
    requires Rep(g, u, q) && u.File? && Ptrs(g, u, q) <= ps && ZeroFilled(d, g, ps) && BlocksOf(g, d, u, buf)
    ensures buf == Padded(Contents(u), UnitsFor(|Contents(u)|) * BLOCK)
  {
    hide NameAt, NamePtrs, Read;
    if Contents(u) != [] {
      var p := g.nodes[u.at].first;
      assert p in Ptrs(g, u, q);
      BlocksHold(|u.body.value|);
    }
  }

  /** The builder and then the kernel: on the image of a tree with short names, finding, sizing, reading
      and releasing the file at a path gives the bytes that the host had, and zeros behind them. */
  method BuildAndRead(root: Tree<()>, predir: Tree<()>, rootFirst: bool, addr: nat -> nat, names: seq<Name>)
    returns (sz: nat, buf: seq<Byte>)
    requires Describes(root, predir) && ShortNames(root) && forall p :: addr(p) < U32_LIMIT
    requires WellNamed(root.contents) && names != [] && forall n :: n in names ==> Mentionable(n)
    ensures GetsFile(Follow(root.contents, names), sz, buf)
  {
    hide Read, GraphOf, Locate, Follow, Rep, NodesIn, BlocksIn, ShortNames, Writable, WellNamed, RootOf, PredirOf,
      FileRead, GetsFile, Erase, Mentionable, Held;
    var f := BuildImage(root, predir, rootFirst, addr);
    sz, buf := ReadPath(f.disk, root, names);
  }

  /** The kernel's part: the file at a path of an image that holds a tree. */
  method ReadPath(d: Disk, ghost root: Tree<()>, names: seq<Name>) returns (sz: nat, buf: seq<Byte>)
    requires Holds(d, RootOf(Read(d, TABLE_AT, BLOCK)), root) && root.Dir? && Writable(root)
    requires WellNamed(root.contents) && names != [] && forall n :: n in names ==> Mentionable(n)
    ensures GetsFile(Follow(root.contents, names), sz, buf)
  {
    hide Read, GraphOf, Locate, Follow, Rep, NodesIn, BlocksIn, ShortNames, Writable, WellNamed, RootOf, PredirOf,
      FileRead, GetsFile, Erase, Mentionable, Held;
    ghost var placed: Tree<nat> :| Held(d, placed) && Erase(placed) == root
        && Head(placed) == RootOf(Read(d, TABLE_AT, BLOCK));
    PlacedRoot(d, placed, root);
    var v := new Volume(d);
    JoinedHasNoNul(names);
    PathFits(placed, root, names);
    sz, buf := v.ReadFile(Join(names), placed);
    ReadIsFile(d, placed, names, v.table, sz, buf);
    ErasedFollow(placed.contents, names);
  }

  /** What the start program gets for a path, if the description says n for it. */
  ghost predicate GetsHostFile(n: Option<F3sParser.PNode>, host: Host, sz: nat, buf: seq<Byte>) {
    if n.Some? && n.value.load.Actual? && n.value.load.path in host then
      var b := host[n.value.load.path];
      && sz == |b| <= |buf| < |b| + 0x1000 && |buf| % 0x1000 == 0 && buf[..sz] == b
      && forall i :: sz <= i < |buf| ==> buf[i] == 0
    else sz == 0
  }

  lemma PaddedIs(b: seq<Byte>)
    ensures var p := Padded(b, UnitsFor(|b|) * BLOCK);
            && |b| <= |p| < |b| + 0x1000 && |p| % 0x1000 == 0 && p[..|b|] == b
            && forall i :: |b| <= i < |p| ==> p[i] == 0
  {
    BlocksHold(|b|);
  }

  lemma GotIsHosts(t: Tree<()>, n: Option<F3sParser.PNode>, host: Host, sz: nat, buf: seq<Byte>)
    requires GetsFile(t, sz, buf) && match n case None => t.Nil? case Some(m) => Matches(t, m, host)
    ensures GetsHostFile(n, host, sz, buf)
  {
    hide Padded, UnitsFor, SameText, AllMatch;
    if n.Some? && n.value.load.Actual? && n.value.load.path in host { PaddedIs(host[n.value.load.path]); }
  }

  /** Of the two nodes, the one that is the root. */
  function RootNode(n: F3sParser.PNode, m: F3sParser.PNode): F3sParser.PNode {
    if n.name == Some("/") then n else m
  }

  /** From text to file: builder and kernel together.  In the image built from a description with short
      names, root first or last, the file at a path is the host's file that the description names for
      it. */
  method BuildTextAndRead(text: string, host: Host, addr: nat -> nat, names: seq<string>, ghost n: F3sParser.PNode,
                          ghost m: F3sParser.PNode)
    returns (sz: nat, buf: seq<Byte>)
    requires Says(text, n, m) && Complete(n) && Complete(m) && forall p :: addr(p) < U32_LIMIT
    requires (n.name == Some("/") && m.name == Some("@")) || (n.name == Some("@") && m.name == Some("/"))
    requires var (t, u) := (TreeOf(n, Nil, host), TreeOf(m, Nil, host));
             t.Dir? && u.Dir? && if n.name == Some("/") then Describes(t, u) else Describes(u, t)
    requires var t := TreeOf(RootNode(n, m), Nil, host); t.Dir? && ShortNames(t) && WellNamed(t.contents)
    requires RootNode(n, m).load.Contents? && ByteNames(RootNode(n, m).load.entries)
    requires names != [] && forall i :: 0 <= i < |names| ==> ByteText(names[i]) && Mentionable(BytesOf(names[i]))
    ensures GetsHostFile(Reach(RootNode(n, m).load.entries, names), host, sz, buf)
  {
    hide HoldsIfShort, Holds, NodesIn, BlocksIn, Writable, ShortNames, TreeOf, Complete, Says, Read, RootOf, PredirOf,
      HeaderReads, WellNamed, Mentionable, GetsFile, GetsHostFile, Matches, ByteText, BytesOf, Reach, Follow, Describes;
    ghost var r := RootNode(n, m);
    ghost var t := TreeOf(r, Nil, host);
    TopNames(n, host);
    TopNames(m, host);
    var f := BuildFromText(text, host, addr, n, m);
    assert Holds(f.disk, RootOf(Read(f.disk, TABLE_AT, BLOCK)), t) by { ShortHolds(f.disk, t, addr); }
    RootFits(t, TreeOf(if n.name == Some("/") then m else n, Nil, host));
    sz, buf := ReadPath(f.disk, t, AllBytes(names));
    RootMatches(t, r, host);
    PathMatches(t.contents, r.load.entries, host, names);
    GotIsHosts(Follow(t.contents, AllBytes(names)), Reach(r.load.entries, names), host, sz, buf);
  }

  lemma TopNames(n: F3sParser.PNode, host: Host)
    requires Complete(n)
    ensures n.name == Some("/") ==> TreeOf(n, Nil, host).name == ROOT_NAME
    ensures n.name == Some("@") ==> TreeOf(n, Nil, host).name == PREDIR_NAME
    ensures ROOT_NAME != PREDIR_NAME
  {
    hide ListOf;
    assert BytesOf("/") == [47] && BytesOf("@") == [64];
  }

  lemma ShortHolds(d: Disk, t: Tree<()>, addr: nat -> nat)
    requires HoldsIfShort(d, RootOf(Read(d, TABLE_AT, BLOCK)), t, addr) && ShortNames(t)
    ensures Holds(d, RootOf(Read(d, TABLE_AT, BLOCK)), t)
  {
    hide Read, RootOf, Holds;
  }

  lemma RootFits(t: Tree<()>, u: Tree<()>)
    requires Describes(t, u)
    ensures Writable(t) && t.Dir?
  {
    hide Writable, NodesIn, BlocksIn;
  }

  lemma RootMatches(t: Tree<()>, n: F3sParser.PNode, host: Host)
    requires Matches(t, n, host) && n.load.Contents?
    ensures t.Dir? && AllMatch(t.contents, n.load.entries, host)
  {
    hide AllMatch, SameText;
  }

  lemma PlacedRoot(d: Disk, placed: Tree<nat>, root: Tree<()>)
    requires Held(d, placed) && Erase(placed) == root && Head(placed) == RootOf(Read(d, TABLE_AT, BLOCK))
    requires root.Dir? && WellNamed(root.contents)
    ensures placed.Dir? && Erase(placed.contents) == root.contents && WellNamed(placed.contents)
    ensures Rooted(Read(d, TABLE_AT, BLOCK), d, placed)
  {
    hide Read, Rep, WellNamed, RootOf, GraphOf, ZeroFilled, Tidy;
    ErasedNames(placed.contents);
  }

  lemma PathFits(placed: Tree<nat>, root: Tree<()>, names: seq<Name>)
    requires placed.Dir? && root.Dir? && Erase(placed.contents) == root.contents && Writable(root)
    requires names != [] && forall n :: n in names ==> Mentionable(n)
    ensures var w := Locate(placed, Nil, Join(names)); w.Found? ==> |Contents(w.t)| <= INT_MAX
  {
    hide Locate, Follow, Erase, Mentionable, Contents;
    NormalPath(placed, Nil, names);
    FoundFits(root.contents, names);
    ErasedFollow(placed.contents, names);
    ErasedContents(Follow(placed.contents, names));
  }
}
