/** The keyboard's ring of bytes, filled by the interrupt and by writers, emptied by readers. */
module Keyboard {
  import opened Bytes

  const KEY_BUF_MAX_SIZE := 0x200
  /** One place stays empty, to tell a full ring from an empty one. */
  const CAPACITY := 0x1FF

  function Min(a: nat, b: nat): nat {
    if a < b then a else b
  }

  // ----- the queue -----

  /** A reader gets the longest prefix there is. */
  function AfterRead(q: seq<Byte>, n: nat): seq<Byte> {
    q[Min(n, |q|)..]
  }

  /** A writer's bytes go in as far as they fit; the newest are dropped. */
  function AfterWrite(q: seq<Byte>, s: seq<Byte>): seq<Byte>
    requires |q| <= CAPACITY
  {
    q + s[..Min(|s|, 511 - |q|)]
  }

  /** A key always goes in; if the queue is full the oldest byte is dropped. */
  function AfterKey(q: seq<Byte>, b: Byte): seq<Byte>
    requires |q| <= CAPACITY
  {
    if |q| == 511 then q[1..] + [b] else q + [b]
  }

  /** The bytes between bottom and top, around the end of the ring. */
  function Between(ring: seq<Byte>, bot: nat, top: nat): seq<Byte>
    requires bot <= |ring| && top <= |ring|
  {
    if bot <= top then ring[bot..top] else ring[bot..] + ring[..top]
  }

  function Next(i: nat): nat {
    if i + 1 == KEY_BUF_MAX_SIZE then 0 else i + 1
  }

  /** A byte stored at the top: it is the last one, and if the top runs into the bottom, moving the
      bottom on drops the first one. */
  lemma StoredAtTop(ring: seq<Byte>, bot: nat, top: nat, b: Byte)
    requires |ring| == KEY_BUF_MAX_SIZE && bot < |ring| && top < |ring|
    ensures Next(top) != bot ==> Between(ring[top := b], bot, Next(top)) == Between(ring, bot, top) + [b]
    ensures Next(top) == bot ==>
              && |Between(ring, bot, top)| == CAPACITY
              && Between(ring[top := b], Next(bot), Next(top)) == Between(ring, bot, top)[1..] + [b]
    ensures Next(top) != bot ==> |Between(ring, bot, top)| < CAPACITY
  {
    var after := ring[top := b];
    if Next(top) == bot {
      var l, r := Between(after, Next(bot), Next(top)), Between(ring, bot, top)[1..] + [b];
      assert |l| == |r|;
      forall i | 0 <= i < |l|
        ensures l[i] == r[i]
      {
      }
      assert l == r;
    } else {
      var l, r := Between(after, bot, Next(top)), Between(ring, bot, top) + [b];
      assert |l| == |r|;
      forall i | 0 <= i < |l|
        ensures l[i] == r[i]
      {
      }
      assert l == r;
    }
  }

  class KeyBuffer {
    const buf: array<Byte>
    var top: nat
    var bot: nat

    constructor ()
      ensures Valid() && Queue() == [] && fresh(buf)
    {
      buf := new Byte[KEY_BUF_MAX_SIZE];
      top, bot := 0, 0;
    }

    ghost predicate Valid()
      reads this
    {
      buf.Length == KEY_BUF_MAX_SIZE && top < KEY_BUF_MAX_SIZE && bot < KEY_BUF_MAX_SIZE
    }

    ghost function Queue(): (q: seq<Byte>)
      requires Valid()
      reads this, buf
      ensures |q| <= CAPACITY
    {
      Between(buf[..], bot, top)
    }

    /** The oldest byte, and the bottom moved past it. */
    method Take() returns (b: Byte)
      requires Valid() && top != bot
      modifies this`bot
      ensures Valid() && |old(Queue())| > 0 && b == old(Queue())[0] && Queue() == old(Queue())[1..]
    {
      b := buf[bot];
      bot := bot + 1;
      if bot == KEY_BUF_MAX_SIZE { bot := 0; }
    }

    /** kb_read */
    method Read(dst: array<Byte>, size: nat) returns (n: nat)
      requires Valid() && size <= dst.Length && dst != buf
      modifies this`bot, dst
      ensures Valid() && n == Min(size, |old(Queue())|)
      ensures Queue() == AfterRead(old(Queue()), size) && dst[..n] == old(Queue())[..n] && dst[n..] == old(dst[n..])
    {
      ghost var q := Queue();
      n := 0;
      while n < size && top != bot
        invariant Valid() && n <= Min(size, |q|) && Queue() == q[n..]
        invariant forall k :: 0 <= k < dst.Length ==> dst[k] == if k < n then q[k] else old(dst[k])
      {
        var b := Take();
        dst[n] := b;
        n := n + 1;
      }
    }

    /** kb_write */
    method Write(src: seq<Byte>) returns (n: nat)
      requires Valid()
      modifies this`top, buf
      ensures Valid() && n == Min(|src|, CAPACITY - |old(Queue())|)
      ensures Queue() == AfterWrite(old(Queue()), src)
    {
      ghost var q := Queue();
      n := 0;
      var t := top;
      while n < |src|
        invariant Valid() && t == top && n <= Min(|src|, CAPACITY - |q|) && Queue() == q + src[..n]
      {
        t := t + 1;
        if t == KEY_BUF_MAX_SIZE { t := 0; }
        if t == bot { break; }
        StoredAtTop(buf[..], bot, top, src[n]);
        ghost var after := buf[..][top := src[n]];
        buf[top] := src[n];
        assert buf[..] == after;
        top := t;
        assert src[..n + 1] == src[..n] + [src[n]];
        n := n + 1;
      }
    }

    /** key_int: the byte goes in first, then the bottom moves if the ring became full. */
    method KeyInterrupt(b: Byte)
      requires Valid()
      modifies this, buf
      ensures Valid() && Queue() == AfterKey(old(Queue()), b)
      ensures |Queue()| == Min(|old(Queue())| + 1, 511) && Queue()[|Queue()| - 1] == b
    {
      StoredAtTop(buf[..], bot, top, b);
      ghost var after := buf[..][top := b];
      buf[top] := b;
      assert buf[..] == after;
      top := top + 1;
      if top == KEY_BUF_MAX_SIZE { top := 0; }
      if top == bot {
        bot := top + 1;
        if bot == KEY_BUF_MAX_SIZE { bot := 0; }
      }
    }
  }

  // ----- runs -----

  datatype Op = Read(n: nat) | Write(s: seq<Byte>) | Key(b: Byte)

  function After(q: seq<Byte>, op: Op): seq<Byte>
    requires |q| <= CAPACITY
  {
    match op
    case Read(n) => AfterRead(q, n)
    case Write(s) => AfterWrite(q, s)
    case Key(b) => AfterKey(q, b)
  }

  /** Bytes that a step takes out for a reader, and those it lets in. */
  function Out(q: seq<Byte>, op: Op): seq<Byte> {
    if op.Read? then q[..Min(op.n, |q|)] else []
  }

  function In(q: seq<Byte>, op: Op): seq<Byte>
    requires |q| <= CAPACITY
  {
    match op
    case Read(_) => []
    case Write(s) => s[..Min(|s|, CAPACITY - |q|)]
    case Key(b) => [b]
  }

  /** The queue at the end, the bytes read, and the bytes let in, over a run. */
  function Run(q: seq<Byte>, ops: seq<Op>): (r: (seq<Byte>, seq<Byte>, seq<Byte>))
    requires |q| <= CAPACITY
    ensures |r.0| <= CAPACITY
    decreases |ops|
  {
    if ops == [] then (q, [], [])
    else
      var (q', out, into) := Run(After(q, ops[0]), ops[1..]);
      (q', Out(q, ops[0]) + out, In(q, ops[0]) + into)
  }

  /** a is what is left of b when some bytes are dropped. */
  ghost predicate Subsequence(a: seq<Byte>, b: seq<Byte>)
    decreases |b|
  {
    a == [] || (b != [] && ((a[0] == b[0] && Subsequence(a[1..], b[1..])) || Subsequence(a, b[1..])))
  }

  lemma {:induction false} SubsequenceSelf(a: seq<Byte>)
    ensures Subsequence(a, a)
  {
    if a != [] { SubsequenceSelf(a[1..]); }
  }

  lemma {:induction false} SubsequenceBehind(p: seq<Byte>, a: seq<Byte>, b: seq<Byte>)
    requires Subsequence(a, b)
    ensures Subsequence(p + a, p + b)
  {
    if p == [] {
      assert p + a == a && p + b == b;
    } else {
      SubsequenceBehind(p[1..], a, b);
      assert (p + a)[1..] == p[1..] + a && (p + b)[1..] == p[1..] + b;
    }
  }

  /** No key arrives at a full queue during the run. */
  ghost predicate NeverFull(q: seq<Byte>, ops: seq<Op>)
    requires |q| <= CAPACITY
    decreases |ops|
  {
    ops == [] || ((ops[0].Key? ==> |q| < CAPACITY) && NeverFull(After(q, ops[0]), ops[1..]))
  }

  /** Over every mix of operations the bytes read and still queued are, in order, the bytes that
      were there and were let in, except for those that keys pushed out of a full queue. */
  lemma {:induction false} NothingReordered(q: seq<Byte>, ops: seq<Op>)
    requires |q| <= CAPACITY
    ensures Subsequence(Run(q, ops).1 + Run(q, ops).0, q + Run(q, ops).2)
    ensures NeverFull(q, ops) ==> Run(q, ops).1 + Run(q, ops).0 == q + Run(q, ops).2
    decreases |ops|
  {
    hide Subsequence, Out, In, After;
    if ops == [] {
      SubsequenceSelf(q);
      assert [] + q == q && q + [] == q;
    } else {
      var op, next := ops[0], After(q, ops[0]);
      StepSplits(q, op);
      NothingReordered(next, ops[1..]);
      var (q', out, into) := Run(next, ops[1..]);
      var x := Out(q, op);
      SubsequenceBehind(x, out + q', next + into);
      Regroup(x, out, q');
      Regroup(x, next, into);
      Regroup(q, In(q, op), into);
      if op.Key? && |q| == CAPACITY {
        Regroup([q[0]], x + next, into);
        SubsequenceLater(q[0], (x + out) + q', x + (next + into));
      }
    }
  }

  lemma Regroup(a: seq<Byte>, b: seq<Byte>, c: seq<Byte>)
    ensures (a + b) + c == a + (b + c)
  {
  }

  /** One step drops nothing, or the oldest byte of a full queue. */
  lemma StepSplits(q: seq<Byte>, op: Op)
    requires |q| <= CAPACITY
    ensures |After(q, op)| <= CAPACITY
    ensures q + In(q, op) == if op.Key? && |q| == CAPACITY then [q[0]] + (Out(q, op) + After(q, op))
            else Out(q, op) + After(q, op)
  {
  }

  lemma SubsequenceLater(x: Byte, a: seq<Byte>, b: seq<Byte>)
    requires Subsequence(a, b)
    ensures Subsequence(a, [x] + b)
  {
    assert ([x] + b)[1..] == b;
  }
}
