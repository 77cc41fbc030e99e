/** Four-level page tables held in physical memory, and the walk over them
    (Intel SDM volume 3A, section 4.5). */
module PageTables {
  import opened Bytes
  import opened Options

  type Page = p: seq<Byte> | |p| == 0x1000 witness Zeros(0x1000)

  /** Physical memory, by frame number.  Frames never written read as zeros;
      any frame may hold anything. */
  type Mem = map<nat, Page>

  const ZERO_PAGE: Page := Zeros(0x1000)
  const WORD_LIMIT := 0x1_0000_0000_0000_0000
  const VPAGES := 0x10_0000_0000          // 36-bit page numbers of a 48-bit space
  const PHYS_FRAMES := 0x100_0000_0000    // 40-bit frame numbers of a 52-bit space

  const PML4_FRAME := 0x2
  const KPT0_FRAME := 0x5
  /** Page number of KSPACE_LOC, the window through which tables are edited. */
  const SCRATCH := 0x8_0000_0000

  function PageAt(m: Mem, f: nat): Page {
    if f in m then m[f] else ZERO_PAGE
  }

  function PokeByte(m: Mem, f: nat, o: nat, b: Byte): Mem
    requires o < 0x1000
  {
    m[f := PageAt(m, f)[o := b]]
  }

  /** The 8-byte word at slot i of frame f. */
  function Entry(m: Mem, f: nat, i: nat): nat
    requires i < 512
  {
    FromLe(PageAt(m, f)[8 * i..8 * i + 8])
  }

  function PokeEntry(m: Mem, f: nat, i: nat, v: nat): Mem
    requires i < 512
  {
    m[f := Splice(PageAt(m, f), 8 * i, ToLe(v, 8))]
  }

  lemma EntryBound(m: Mem, f: nat, i: nat)
    requires i < 512
    ensures Entry(m, f, i) < WORD_LIMIT
  {
    assert Pow256(8) == WORD_LIMIT;
  }

  /** Writing one slot changes that slot and no other. */
  lemma PokeEntryEffect(m: Mem, f: nat, i: nat, v: nat)
    requires i < 512 && v < WORD_LIMIT
    ensures Entry(PokeEntry(m, f, i, v), f, i) == v
    ensures forall g, j :: 0 <= j < 512 && (g != f || j != i) ==>
              Entry(PokeEntry(m, f, i, v), g, j) == Entry(m, g, j)
    ensures forall g :: g != f ==> PageAt(PokeEntry(m, f, i, v), g) == PageAt(m, g)
  {
    assert Pow256(8) == WORD_LIMIT;
    LeRoundTrip(v, 8);
    SpliceSame(PageAt(m, f), 8 * i, ToLe(v, 8));
    forall g: nat, j: nat | j < 512 && (g != f || j != i)
      ensures Entry(PokeEntry(m, f, i, v), g, j) == Entry(m, g, j)
    {
      if g == f {
        SpliceElsewhere(PageAt(m, f), 8 * i, ToLe(v, 8), 8 * j, 8 * j + 8);
      }
    }
  }

  lemma ZeroFrameHasNoEntries(m: Mem, f: nat)
    requires PageAt(m, f) == ZERO_PAGE
    ensures forall i :: 0 <= i < 512 ==> Entry(m, f, i) == 0
  {
    forall i: nat | i < 512
      ensures Entry(m, f, i) == 0
    {
      LeOfZeros(PageAt(m, f)[8 * i..8 * i + 8]);
    }
  }

  predicate Present(e: nat) {
    e % 2 == 1
  }

  function FrameOf(e: nat): nat {
    e / 0x1000 % PHYS_FRAMES
  }

  lemma LowBit(f: nat, fl: nat)
    requires fl % 2 == 1
    ensures Present(f * 0x1000 + fl)
  {
    var h := fl / 2;
    assert f * 0x1000 + fl == 2 * (f * 0x800 + h) + 1;
  }

  lemma HighPart(f: nat, fl: nat)
    requires fl < 0x1000
    ensures (f * 0x1000 + fl) / 0x1000 == f
  {
  }

  /** A frame's address with flags in its low bits is an entry for that frame. */
  lemma TaggedFrame(f: nat, fl: nat)
    requires f < PHYS_FRAMES && fl % 2 == 1 && fl < 0x1000
    ensures Present(f * 0x1000 + fl) && FrameOf(f * 0x1000 + fl) == f && f * 0x1000 + fl < WORD_LIMIT
  {
    hide Present;
    LowBit(f, fl);
    HighPart(f, fl);
  }

  // ----- the hardware walk -----

  /** Pages covered by one entry of a table at this level (0 = page table, 3 = PML4). */
  function Unit(level: nat): nat
    requires level <= 4
  {
    if level == 0 then 1
    else if level == 1 then 0x200
    else if level == 2 then 0x4_0000
    else if level == 3 then 0x800_0000
    else VPAGES
  }

  function Slot(vp: nat, level: nat): (i: nat)
    requires level <= 3
    ensures i < 512
  {
    vp / Unit(level) % 512
  }

  /** Frame of the table that the walk for page vp consults at this level. */
  function TableOf(m: Mem, vp: nat, level: nat): Option<nat>
    requires level <= 3
    decreases 3 - level
  {
    if level == 3 then Some(PML4_FRAME)
    else
      match TableOf(m, vp, level + 1)
      case None => None
      case Some(f) =>
        var e := Entry(m, f, Slot(vp, level + 1));
        if Present(e) then Some(FrameOf(e)) else None
  }

  function Leaf(e: nat): Option<nat> {
    if Present(e) then Some(e) else None
  }

  /** The translation of page vp: its present leaf entry, if any. */
  function Walk(m: Mem, vp: nat): Option<nat> {
    match TableOf(m, vp, 0)
    case None => None
    case Some(f) => Leaf(Entry(m, f, Slot(vp, 0)))
  }

  /** The entry that the walk for page vp reads at this level, if it gets there. */
  function PathEntry(m: Mem, vp: nat, level: nat): Option<nat>
    requires level <= 3
  {
    match TableOf(m, vp, level)
    case None => None
    case Some(f) => Some(Entry(m, f, Slot(vp, level)))
  }

  /** Present, writable, and for programs: bits 0, 1 and 2. */
  predicate UserBits(e: nat) {
    e % 2 == 1 && e / 2 % 2 == 1 && e / 4 % 2 == 1
  }

  /** A program may read and write page vp: the three bits are set in all four entries on its path
      (Intel SDM volume 3A, section 4.6). */
  ghost predicate UserMay(m: Mem, vp: nat) {
    forall level :: 0 <= level <= 3 ==> PathEntry(m, vp, level).Some? && UserBits(PathEntry(m, vp, level).value)
  }

  // ----- tables as a tree of distinct frames -----

  /** Identity of a table: its level and the high-order part of the page numbers below it. */
  datatype Key = Key(level: nat, prefix: nat)

  type Tables = map<Key, nat>

  function KeyOf(vp: nat, level: nat): Key
    requires level <= 3
  {
    Key(level, vp / Unit(level + 1))
  }

  const ROOT := Key(3, 0)

  function Child(k: Key, i: nat): Key
    requires 0 < k.level
  {
    Key(k.level - 1, k.prefix * 512 + i)
  }

  function Parent(k: Key): Key {
    Key(k.level + 1, k.prefix / 512)
  }

  ghost predicate Shape(T: Tables) {
    && ROOT in T && T[ROOT] == PML4_FRAME
    && (forall k :: k in T ==> k.level <= 3 && (k.level == 3 ==> k == ROOT))
    && (forall k :: k in T && k.level < 3 ==> Parent(k) in T)
    && (forall j, k :: j in T && k in T && j != k ==> T[j] != T[k])
  }

  /** Memory m holds exactly the tables T: below every entry of an upper table hangs the
      table T records there, and nothing else. */
  ghost predicate Tree(m: Mem, T: Tables) {
    && Shape(T)
    && (forall k, i {:trigger Entry(m, T[k], i)} | k in T && 0 < k.level && 0 <= i < 512 ::
          && (Present(Entry(m, T[k], i)) <==> Child(k, i) in T)
          && (Child(k, i) in T ==> FrameOf(Entry(m, T[k], i)) == T[Child(k, i)]))
  }

  lemma KeyLadder(vp: nat, level: nat)
    requires level < 3
    ensures Parent(KeyOf(vp, level)) == KeyOf(vp, level + 1)
    ensures Child(KeyOf(vp, level + 1), Slot(vp, level + 1)) == KeyOf(vp, level)
  {
  }

  /** In a tree the walk reaches, at every level, precisely the recorded table. */
  lemma {:induction false} WalkFollowsTree(m: Mem, T: Tables, vp: nat, level: nat)
    requires Tree(m, T) && vp < VPAGES && level <= 3
    ensures TableOf(m, vp, level) == if KeyOf(vp, level) in T then Some(T[KeyOf(vp, level)]) else None
    decreases 3 - level
  {
    if level == 3 {
      assert KeyOf(vp, 3) == ROOT;
    } else {
      WalkFollowsTree(m, T, vp, level + 1);
      KeyLadder(vp, level);
      if KeyOf(vp, level + 1) in T {
        var up := KeyOf(vp, level + 1);
        assert Present(Entry(m, T[up], Slot(vp, level + 1))) <==> Child(up, Slot(vp, level + 1)) in T;
      }
    }
  }

  /** The translation that the recorded tables give page vp. */
  function Lookup(m: Mem, T: Tables, vp: nat): Option<nat> {
    if KeyOf(vp, 0) in T then Leaf(Entry(m, T[KeyOf(vp, 0)], vp % 512)) else None
  }

  lemma WalkIsLookup(m: Mem, T: Tables, vp: nat)
    requires Tree(m, T) && vp < VPAGES
    ensures Walk(m, vp) == Lookup(m, T, vp)
  {
    hide Entry, Tree, TableOf;
    WalkFollowsTree(m, T, vp, 0);
  }

  // ----- effects of edits -----

  /** m' agrees with m on every entry of the tables T except the one at slot i of table k,
      which now holds v. */
  ghost predicate Edited(m: Mem, m': Mem, T: Tables, k: Key, i: nat, v: nat) {
    forall j, l {:trigger Entry(m', T[j], l)} | j in T && 0 <= l < 512 ::
      Entry(m', T[j], l) == if j == k && l == i then v else Entry(m, T[j], l)
  }

  lemma PokeEdits(m: Mem, T: Tables, k: Key, i: nat, v: nat)
    requires Shape(T) && k in T && i < 512 && v < WORD_LIMIT
    ensures Edited(m, PokeEntry(m, T[k], i, v), T, k, i, v)
  {
    PokeEntryEffect(m, T[k], i, v);
  }

  /** Editing a leaf entry retranslates its page and no other. */
  lemma LeafEdit(m: Mem, m': Mem, T: Tables, vp: nat, v: nat)
    requires Tree(m, T) && vp < VPAGES && KeyOf(vp, 0) in T
    requires Edited(m, m', T, KeyOf(vp, 0), vp % 512, v)
    ensures Tree(m', T)
    ensures forall p :: 0 <= p < VPAGES ==> Walk(m', p) == if p == vp then Leaf(v) else Walk(m, p)
  {
    forall k, i {:trigger Entry(m', T[k], i)} | k in T && 0 < k.level && 0 <= i < 512
      ensures Entry(m', T[k], i) == Entry(m, T[k], i)
    {
    }
    forall p | 0 <= p < VPAGES
      ensures Walk(m', p) == if p == vp then Leaf(v) else Walk(m, p)
    {
      WalkIsLookup(m, T, p);
      WalkIsLookup(m', T, p);
    }
  }

  /** The path of a mapped page survives any edit that leaves the entries above the leaf alone. */
  lemma {:induction false} PathSurvives(m: Mem, m': Mem, T: Tables, vp: nat, level: nat)
    requires Tree(m, T) && vp < VPAGES && level <= 3 && KeyOf(vp, 0) in T
    requires forall l :: 1 <= l <= 3 ==> KeyOf(vp, l) in T
    requires forall l :: 1 <= l <= 3 ==>
               Entry(m', T[KeyOf(vp, l)], Slot(vp, l)) == Entry(m, T[KeyOf(vp, l)], Slot(vp, l))
    ensures TableOf(m', vp, level) == Some(T[KeyOf(vp, level)])
    decreases 3 - level
  {
    hide Entry, FrameOf, Present;
    if level == 3 {
      assert KeyOf(vp, 3) == ROOT;
    } else {
      PathSurvives(m, m', T, vp, level + 1);
      KeyLadder(vp, level);
    }
  }

  lemma PathKeys(T: Tables, vp: nat)
    requires Shape(T) && KeyOf(vp, 0) in T
    ensures forall l :: 0 <= l <= 3 ==> KeyOf(vp, l) in T
  {
    KeyLadder(vp, 0);
    KeyLadder(vp, 1);
    KeyLadder(vp, 2);
  }

  /** An absent entry of an upper table is on no mapped page's path, whatever is put there. */
  lemma AbsentEntryOnNoPath(m: Mem, m': Mem, T: Tables, k: Key, i: nat, vp: nat)
    requires Tree(m, T) && vp < VPAGES && KeyOf(vp, 0) in T
    requires k in T && 0 < k.level && i < 512 && !Present(Entry(m, T[k], i))
    requires forall j, l {:trigger Entry(m', T[j], l)} | j in T && 0 < j.level && 0 <= l < 512 ::
               (j == k && l == i) || Entry(m', T[j], l) == Entry(m, T[j], l)
    ensures TableOf(m', vp, 0) == Some(T[KeyOf(vp, 0)])
  {
    PathKeys(T, vp);
    forall l | 1 <= l <= 3
      ensures Entry(m', T[KeyOf(vp, l)], Slot(vp, l)) == Entry(m, T[KeyOf(vp, l)], Slot(vp, l))
    {
      KeyLadder(vp, l - 1);
      assert Present(Entry(m, T[KeyOf(vp, l)], Slot(vp, l)));
      assert Entry(m', T[KeyOf(vp, l)], Slot(vp, l)) == Entry(m, T[KeyOf(vp, l)], Slot(vp, l));
    }
    PathSurvives(m, m', T, vp, 0);
  }

  /** m' is m with a fresh, empty table r hung under the absent entry (k, i), and with the
      scratch page pointed at it. */
  ghost predicate Grown(m: Mem, m': Mem, T: Tables, k: Key, i: nat, r: nat) {
    && KeyOf(SCRATCH, 0) in T && k in T && 0 < k.level && i < 512
    && !Present(Entry(m, T[k], i)) && Present(r) && FrameOf(r) !in T.Values
    && (forall j, l {:trigger Entry(m', T[j], l)} | j in T && 0 <= l < 512 ::
          Entry(m', T[j], l) == if j == k && l == i then r
                                else if j == KeyOf(SCRATCH, 0) && l == 0 then r
                                else Entry(m, T[j], l))
    && (forall l :: 0 <= l < 512 ==> Entry(m', FrameOf(r), l) == 0)
  }

  /** The tables under one upper table of the grown tree. */
  lemma GrownEntries(m: Mem, m': Mem, T: Tables, k: Key, i: nat, r: nat, j: Key)
    requires Tree(m, T) && Grown(m, m', T, k, i, r)
    requires j in T && 0 < j.level
    ensures var T' := T[Child(k, i) := FrameOf(r)];
            forall l :: 0 <= l < 512 ==>
              && (Present(Entry(m', T[j], l)) <==> Child(j, l) in T')
              && (Child(j, l) in T' ==> FrameOf(Entry(m', T[j], l)) == T'[Child(j, l)])
  {
    var c := Child(k, i);
    var T' := T[c := FrameOf(r)];
    forall l | 0 <= l < 512
      ensures Present(Entry(m', T[j], l)) <==> Child(j, l) in T'
      ensures Child(j, l) in T' ==> FrameOf(Entry(m', T[j], l)) == T'[Child(j, l)]
    {
      assert Child(j, l) == c <==> j == k && l == i;
      assert Present(Entry(m, T[j], l)) <==> Child(j, l) in T;
    }
  }

  /** Growing by an empty table keeps the tree ... */
  lemma GrowTree(m: Mem, m': Mem, T: Tables, k: Key, i: nat, r: nat)
    requires Tree(m, T) && Grown(m, m', T, k, i, r)
    ensures Child(k, i) !in T
    ensures Tree(m', T[Child(k, i) := FrameOf(r)])
  {
    var c := Child(k, i);
    var T' := T[c := FrameOf(r)];
    assert Present(Entry(m, T[k], i)) <==> c in T;
    GrownShape(T, k, i, FrameOf(r));
    forall j, l {:trigger Entry(m', T'[j], l)} | j in T' && 0 < j.level && 0 <= l < 512
      ensures Present(Entry(m', T'[j], l)) <==> Child(j, l) in T'
      ensures Child(j, l) in T' ==> FrameOf(Entry(m', T'[j], l)) == T'[Child(j, l)]
    {
      if j == c {
        assert Parent(Child(c, l)) == c;
        assert Child(c, l).level < c.level;
      } else {
        GrownEntries(m, m', T, k, i, r, j);
      }
    }
  }

  lemma GrowKeepsLookups(m: Mem, m': Mem, T: Tables, k: Key, i: nat, r: nat, p: nat)
    requires Shape(T) && Grown(m, m', T, k, i, r) && Child(k, i) !in T && p < VPAGES
    ensures Lookup(m', T[Child(k, i) := FrameOf(r)], p) == if p == SCRATCH then Some(r) else Lookup(m, T, p)
  {
    var j := KeyOf(p, 0);
    if j == Child(k, i) {
      assert Entry(m', FrameOf(r), p % 512) == 0;
    } else if j in T {
      assert j == KeyOf(SCRATCH, 0) && p % 512 == 0 <==> p == SCRATCH;
    }
  }

  /** ... and changes no translation but the scratch page's. */
  lemma GrowKeepsWalks(m: Mem, m': Mem, T: Tables, k: Key, i: nat, r: nat)
    requires Tree(m, T) && Grown(m, m', T, k, i, r)
    ensures forall p :: 0 <= p < VPAGES ==> Walk(m', p) == if p == SCRATCH then Some(r) else Walk(m, p)
  {
    GrowTree(m, m', T, k, i, r);
    forall p | 0 <= p < VPAGES
      ensures Walk(m', p) == if p == SCRATCH then Some(r) else Walk(m, p)
    {
      WalkIsLookup(m, T, p);
      WalkIsLookup(m', T[Child(k, i) := FrameOf(r)], p);
      GrowKeepsLookups(m, m', T, k, i, r, p);
    }
  }

  lemma GrownShape(T: Tables, k: Key, i: nat, f: nat)
    requires Shape(T) && k in T && 0 < k.level && i < 512
    requires Child(k, i) !in T && f !in T.Values
    ensures Shape(T[Child(k, i) := f])
  {
    assert Parent(Child(k, i)) == k;
  }
}
