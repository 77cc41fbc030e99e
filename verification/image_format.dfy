/** The f301 node table: 24-byte slots, and what trees they represent. */
module ImageFormat {
  import opened Bytes
  import opened Options

  const SLOT_BYTES := 24
  /** The last entry whose slot lies inside its 4 KiB table. */
  const LAST_ENTRY := 169
  const CHUNK := 18
  const BLOCK := 0x1000
  const INT_MAX := 0x7FFF_FFFF
  const U32_LIMIT := 0x1_0000_0000

  const NT_DIR: Byte := 1
  const NT_FILE: Byte := 2
  const NT_DATA: Byte := 3
  const NT_STRING: Byte := 4
  const NT_INDIRECT: Byte := 5

  type Name = seq<Byte>

  /** A list of sibling entries; `at` is where an entry's node is, or nothing for a tree that is
      not in an image.  `body` is the file's contents, or None if there was no file to read. */
  datatype Tree<L> =
    | Nil
    | File(at: L, name: Name, owner: nat, body: Option<seq<Byte>>, next: Tree<L>)
    | Dir(at: L, name: Name, owner: nat, contents: Tree<L>, next: Tree<L>)
    | Indirect(at: L, name: Name, owner: nat, dest: Name, next: Tree<L>)

  function Erase(t: Tree<nat>): Tree<()> {
    match t
    case Nil => Nil
    case File(_, name, owner, body, next) => File((), name, owner, body, Erase(next))
    case Dir(_, name, owner, contents, next) => Dir((), name, owner, Erase(contents), Erase(next))
    case Indirect(_, name, owner, dest, next) => Indirect((), name, owner, dest, Erase(next))
  }

  /** A node pointer; 0 is null. */
  function Head(t: Tree<nat>): nat {
    if t.Nil? then 0 else t.at
  }

  // ----- nodes and their slots -----

  /** Directories, files and indirects share one layout: `first` is the first entry, the first
      data node or the destination's name. */
  datatype Node =
    | Entry(kind: Byte, perm: Byte, owner: nat, name: nat, first: nat, next: nat, parent: nat)
    | Data(blocks: nat, lba: nat, next: nat, last: nat)
    | Str(size: Byte, chars: seq<Byte>, next: nat)
    | Free

  predicate EntryKind(k: Byte) {
    k == NT_DIR || k == NT_FILE || k == NT_INDIRECT
  }

  /** Fields that fit the slot. */
  predicate Fits(n: Node) {
    match n
    case Entry(k, _, o, m, f, x, p) =>
      EntryKind(k) && o < U32_LIMIT && m < U32_LIMIT && f < U32_LIMIT && x < U32_LIMIT && p < U32_LIMIT
    case Data(b, l, x, r) => b < U32_LIMIT && l < 0x1_0000_0000_0000_0000 && x < U32_LIMIT && r < U32_LIMIT
    case Str(s, c, x) => |c| == CHUNK && x < U32_LIMIT
    case Free => false
  }

  function Encode(n: Node): (s: seq<Byte>)
    requires Fits(n)
    ensures |s| == SLOT_BYTES
  {
    match n
    case Entry(k, perm, o, m, f, x, p) =>
      [k, perm, 0, 0] + ToLe(o, 4) + ToLe(m, 4) + ToLe(f, 4) + ToLe(x, 4) + ToLe(p, 4)
    case Data(b, l, x, r) => [NT_DATA, 0, 0, 0] + ToLe(b, 4) + ToLe(l, 8) + ToLe(x, 4) + ToLe(r, 4)
    case Str(s, c, x) => [NT_STRING, s] + c + ToLe(x, 4)
  }

  /** The kernel's view of a slot.  The low four bits of the first byte are the type; bit 7 is the
      lock. */
  function Decode(s: seq<Byte>): Node
    requires |s| == SLOT_BYTES
  {
    var k: Byte := s[0] % 16;
    if EntryKind(k) then
      Entry(k, s[1], FromLe(s[4..8]), FromLe(s[8..12]), FromLe(s[12..16]), FromLe(s[16..20]), FromLe(s[20..24]))
    else if k == NT_DATA then Data(FromLe(s[4..8]), FromLe(s[8..16]), FromLe(s[16..20]), FromLe(s[20..24]))
    else if k == NT_STRING then Str(s[1], s[2..20], FromLe(s[20..24]))
    else Free
  }

  lemma Word(v: nat, n: nat)
    requires (n == 4 && v < U32_LIMIT) || (n == 8 && v < 0x1_0000_0000_0000_0000)
    ensures FromLe(ToLe(v, n)) == v
  {
    assert Pow256(4) == U32_LIMIT && Pow256(8) == 0x1_0000_0000_0000_0000;
    LeRoundTrip(v, n);
  }

  lemma Cut(s: seq<Byte>, a: seq<Byte>, b: seq<Byte>, c: seq<Byte>)
    requires s == a + b + c
    ensures s[|a|..|a| + |b|] == b
  {
  }

  lemma EntryRoundTrip(n: Node)
    requires Fits(n) && n.Entry?
    ensures Decode(Encode(n)) == n
  {
    hide ToLe, FromLe;
    var s := Encode(n);
    Word(n.owner, 4); Word(n.name, 4); Word(n.first, 4); Word(n.next, 4); Word(n.parent, 4);
    var h, w0, w1 := [n.kind, n.perm, 0, 0], ToLe(n.owner, 4), ToLe(n.name, 4);
    var w2, w3, w4 := ToLe(n.first, 4), ToLe(n.next, 4), ToLe(n.parent, 4);
    Cut(s, h, w0, w1 + w2 + w3 + w4);
    Cut(s, h + w0, w1, w2 + w3 + w4);
    Cut(s, h + w0 + w1, w2, w3 + w4);
    Cut(s, h + w0 + w1 + w2, w3, w4);
    Cut(s, h + w0 + w1 + w2 + w3, w4, []);
  }

  lemma DataRoundTrip(n: Node)
    requires Fits(n) && n.Data?
    ensures Decode(Encode(n)) == n
  {
    hide ToLe, FromLe;
    var s := Encode(n);
    Word(n.blocks, 4); Word(n.lba, 8); Word(n.next, 4); Word(n.last, 4);
    var h, w0, w1, w2, w3 := [NT_DATA, 0, 0, 0], ToLe(n.blocks, 4), ToLe(n.lba, 8), ToLe(n.next, 4), ToLe(n.last, 4);
    Cut(s, h, w0, w1 + w2 + w3);
    Cut(s, h + w0, w1, w2 + w3);
    Cut(s, h + w0 + w1, w2, w3);
    Cut(s, h + w0 + w1 + w2, w3, []);
  }

  lemma StringRoundTrip(n: Node)
    requires Fits(n) && n.Str?
    ensures Decode(Encode(n)) == n
  {
    hide ToLe, FromLe;
    var s := Encode(n);
    Word(n.next, 4);
    Cut(s, [NT_STRING, n.size], n.chars, ToLe(n.next, 4));
    Cut(s, [NT_STRING, n.size] + n.chars, ToLe(n.next, 4), []);
  }

  /** The number that k bytes from offset o of a slot on spell, lowest byte first. */
  function Field(s: seq<Byte>, o: nat, k: nat): nat
    requires o + k <= |s|
  {
    FromLe(s[o..o + k])
  }

  /** The layout on disk, byte by byte. */
  lemma SlotLayout(n: Node)
    requires Fits(n)
    ensures var s := Encode(n);
            match n
            case Entry(k, perm, owner, name, first, next, parent) =>
              && s[..4] == [k, perm, 0, 0] && k in {1, 2, 5} && Field(s, 4, 4) == owner && Field(s, 8, 4) == name
              && Field(s, 12, 4) == first && Field(s, 16, 4) == next && Field(s, 20, 4) == parent
            case Data(blocks, lba, next, last) =>
              && s[..4] == [3, 0, 0, 0] && Field(s, 4, 4) == blocks && Field(s, 8, 8) == lba
              && Field(s, 16, 4) == next && Field(s, 20, 4) == last
            case Str(size, chars, next) => s[..2] == [4, size] && s[2..20] == chars && Field(s, 20, 4) == next
  {
    hide ToLe, FromLe;
    SlotRoundTrip(n);
  }

  /** The two programs agree on the layout. */
  lemma SlotRoundTrip(n: Node)
    requires Fits(n)
    ensures Decode(Encode(n)) == n
  {
    hide Encode, Decode;
    match n {
      case Entry(_, _, _, _, _, _, _) => EntryRoundTrip(n);
      case Data(_, _, _, _) => DataRoundTrip(n);
      case Str(_, _, _) => StringRoundTrip(n);
    }
  }

  /** Setting or clearing the lock bit changes nothing that is decoded. */
  lemma LockBitIsNotDecoded(s: seq<Byte>, b: Byte)
    requires |s| == SLOT_BYTES && b % 16 == s[0] % 16
    ensures Decode(s[0 := b]) == Decode(s)
  {
    hide FromLe;
    var r := s[0 := b];
    assert r[4..8] == s[4..8] && r[8..12] == s[8..12] && r[12..16] == s[12..16] && r[16..20] == s[16..20];
    assert r[20..24] == s[20..24] && r[8..16] == s[8..16] && r[2..20] == s[2..20];
  }

  // ----- what nodes represent -----

  /** Nodes by number, and for data nodes what their extents hold. */
  datatype Graph = Graph(nodes: map<nat, Node>, files: map<nat, seq<Byte>>)

  /** The string s is spread over string nodes from p on, 18 characters in all but the last. */
  ghost predicate NameAt(g: Graph, p: nat, s: Name)
    decreases |s|
  {
    && p != 0 && p in g.nodes && g.nodes[p].Str? && |g.nodes[p].chars| == CHUNK
    && if |s| > CHUNK then
         && g.nodes[p].size == CHUNK && g.nodes[p].chars == s[..CHUNK]
         && g.nodes[p].next != 0 && NameAt(g, g.nodes[p].next, s[CHUNK..])
       else g.nodes[p].size == |s| && g.nodes[p].chars[..|s|] == s && g.nodes[p].next == 0
  }

  function LastBytes(n: nat): nat {
    if n % BLOCK == 0 then BLOCK else n % BLOCK
  }

  /** The data node of a file: one extent, and the bytes in it. */
  ghost predicate BodyAt(g: Graph, p: nat, body: Option<seq<Byte>>) {
    match body
    case None => p == 0
    case Some(b) =>
      && p != 0 && p in g.nodes && g.nodes[p].Data? && p in g.files && g.files[p] == b
      && g.nodes[p].blocks == UnitsFor(|b|) && g.nodes[p].last == LastBytes(|b|) && g.nodes[p].next == 0
  }

  /** An entry's own fields.  The root is its own parent. */
  ghost predicate IsEntry(g: Graph, p: nat, kind: Byte, owner: nat, next: nat, parent: nat) {
    && p != 0 && p in g.nodes && g.nodes[p].Entry? && g.nodes[p].kind == kind
    && g.nodes[p].owner == owner && g.nodes[p].next == next
    && g.nodes[p].parent == if kind == NT_DIR && parent == 0 then p else parent
  }

  /** The graph represents the entries t, whose parent is the node `parent` (null at the root).  A directory is
      a node of type 1, a file one of type 2, an indirect one of type 5. */
  ghost predicate Rep(g: Graph, t: Tree<nat>, parent: nat) {
    match t
    case Nil => true
    case File(at, name, owner, body, next) =>
      && IsEntry(g, at, 2, owner, Head(next), parent)
      && NameAt(g, g.nodes[at].name, name) && BodyAt(g, g.nodes[at].first, body)
      && Rep(g, next, parent)
    case Dir(at, name, owner, contents, next) =>
      && IsEntry(g, at, 1, owner, Head(next), parent)
      && NameAt(g, g.nodes[at].name, name) && g.nodes[at].first == Head(contents)
      && Rep(g, contents, at) && Rep(g, next, parent)
    case Indirect(at, name, owner, dest, next) =>
      && IsEntry(g, at, 5, owner, Head(next), parent)
      && NameAt(g, g.nodes[at].name, name) && NameAt(g, g.nodes[at].first, dest)
      && Rep(g, next, parent)
  }

  /** The numbers of the nodes that a name or a tree consists of. */
  ghost function NamePtrs(g: Graph, p: nat, s: Name): set<nat>
    requires NameAt(g, p, s)
    decreases |s|
  {
    if |s| > CHUNK then {p} + NamePtrs(g, g.nodes[p].next, s[CHUNK..]) else {p}
  }

  ghost function Ptrs(g: Graph, t: Tree<nat>, parent: nat): set<nat>
    requires Rep(g, t, parent)
  {
    match t
    case Nil => {}
    case File(at, name, _, body, next) =>
      {at} + NamePtrs(g, g.nodes[at].name, name) + (if body.Some? then {g.nodes[at].first} else {})
      + Ptrs(g, next, parent)
    case Dir(at, name, _, contents, next) =>
      {at} + NamePtrs(g, g.nodes[at].name, name) + Ptrs(g, contents, at) + Ptrs(g, next, parent)
    case Indirect(at, name, _, dest, next) =>
      {at} + NamePtrs(g, g.nodes[at].name, name) + NamePtrs(g, g.nodes[at].first, dest) + Ptrs(g, next, parent)
  }

  ghost predicate AgreeAt(g: Graph, h: Graph, p: nat) {
    && p in g.nodes && p in h.nodes && h.nodes[p] == g.nodes[p]
    && (g.nodes[p].Data? && p in g.files ==> p in h.files && h.files[p] == g.files[p])
  }

  /** The graphs agree on the nodes ps. */
  ghost predicate AgreeOn(g: Graph, h: Graph, ps: set<nat>) {
    forall p :: p in ps ==> AgreeAt(g, h, p)
  }

  lemma {:induction false} NameDependsOn(g: Graph, h: Graph, p: nat, s: Name)
    requires NameAt(g, p, s) && AgreeOn(g, h, NamePtrs(g, p, s))
    ensures NameAt(h, p, s) && NamePtrs(h, p, s) == NamePtrs(g, p, s)
    decreases |s|
  {
    assert AgreeAt(g, h, p);
    if |s| > CHUNK { NameDependsOn(g, h, g.nodes[p].next, s[CHUNK..]); }
  }

  /** What is represented depends on the tree's own nodes only. */
  lemma {:induction false} RepDependsOn(g: Graph, h: Graph, t: Tree<nat>, parent: nat)
    requires Rep(g, t, parent) && AgreeOn(g, h, Ptrs(g, t, parent))
    ensures Rep(h, t, parent) && Ptrs(h, t, parent) == Ptrs(g, t, parent)
  {
    hide NameAt, NamePtrs, UnitsFor, LastBytes;
    match t {
      case Nil => {}
      case File(at, name, _, body, next) => {
        assert AgreeAt(g, h, at);
        if body.Some? { assert AgreeAt(g, h, g.nodes[at].first); }
        NameDependsOn(g, h, g.nodes[at].name, name);
        RepDependsOn(g, h, next, parent);
      }
      case Dir(at, name, _, contents, next) => {
        assert AgreeAt(g, h, at);
        NameDependsOn(g, h, g.nodes[at].name, name);
        RepDependsOn(g, h, contents, at);
        RepDependsOn(g, h, next, parent);
      }
      case Indirect(at, name, _, dest, next) => {
        assert AgreeAt(g, h, at);
        NameDependsOn(g, h, g.nodes[at].name, name);
        NameDependsOn(g, h, g.nodes[at].first, dest);
        RepDependsOn(g, h, next, parent);
      }
    }
  }

  lemma {:induction false} NamePtrsAreNodes(g: Graph, p: nat, s: Name)
    requires NameAt(g, p, s)
    ensures NamePtrs(g, p, s) <= g.nodes.Keys
    decreases |s|
  {
    if |s| > CHUNK { NamePtrsAreNodes(g, g.nodes[p].next, s[CHUNK..]); }
  }

  lemma {:induction false} PtrsAreNodes(g: Graph, t: Tree<nat>, parent: nat)
    requires Rep(g, t, parent)
    ensures Ptrs(g, t, parent) <= g.nodes.Keys
  {
    hide NameAt, NamePtrs, UnitsFor, LastBytes;
    match t {
      case Nil => {}
      case File(at, name, _, _, next) => {
        NamePtrsAreNodes(g, g.nodes[at].name, name);
        PtrsAreNodes(g, next, parent);
      }
      case Dir(at, name, _, contents, next) => {
        NamePtrsAreNodes(g, g.nodes[at].name, name);
        PtrsAreNodes(g, contents, at);
        PtrsAreNodes(g, next, parent);
      }
      case Indirect(at, name, _, dest, next) => {
        NamePtrsAreNodes(g, g.nodes[at].name, name);
        NamePtrsAreNodes(g, g.nodes[at].first, dest);
        PtrsAreNodes(g, next, parent);
      }
    }
  }

  // ----- an image determines its tree -----

  lemma {:induction false} OneName(g: Graph, p: nat, s: Name, r: Name)
    requires NameAt(g, p, s) && NameAt(g, p, r)
    ensures s == r
    decreases |s|
  {
    if |s| > CHUNK {
      OneName(g, g.nodes[p].next, s[CHUNK..], r[CHUNK..]);
      assert s == s[..CHUNK] + s[CHUNK..] && r == r[..CHUNK] + r[CHUNK..];
    }
  }

  /** Two trees that the same graph represents from the same head are equal: types, names, owners,
      contents, order and places. */
  lemma {:induction false} ImageDeterminesTree(g: Graph, t: Tree<nat>, u: Tree<nat>, parent: nat)
    requires Rep(g, t, parent) && Rep(g, u, parent) && Head(t) == Head(u)
    ensures t == u
    decreases t
  {
    hide UnitsFor, LastBytes, NameAt;
    match t {
      case Nil => {}
      case File(at, name, _, body, next) => {
        OneName(g, g.nodes[at].name, name, u.name);
        ImageDeterminesTree(g, next, u.next, parent);
      }
      case Dir(at, name, _, contents, next) => {
        OneName(g, g.nodes[at].name, name, u.name);
        ImageDeterminesTree(g, contents, u.contents, at);
        ImageDeterminesTree(g, next, u.next, parent);
      }
      case Indirect(at, name, _, dest, next) => {
        OneName(g, g.nodes[at].name, name, u.name);
        OneName(g, g.nodes[at].first, dest, u.dest);
        ImageDeterminesTree(g, next, u.next, parent);
      }
    }
  }
}
