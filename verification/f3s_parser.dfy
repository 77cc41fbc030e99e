/** The .f3s parser of the image builder. */
module F3sParser {
  import opened Options
  import opened Numbers

  /** Room for a token's characters in the parser's buffer. */
  const TOKEN_MAX := 1023

  datatype Perm = PermNone | PermOwner | PermAll

  datatype Perms = Perms(read: Perm, write: Perm, exec: Perm)

  datatype Kind = FileKind | DirKind | IndirectKind

  /** What a node's union holds, if anything has been put there. */
  datatype Load = Unset | Actual(path: string) | Dest(path: string) | Contents(entries: seq<PNode>)

  datatype PNode = PNode(kind: Kind, name: Option<string>, perms: Perms, owner: int, load: Load)

  // ----- tokens -----

  predicate IsDelim(c: char) {
    c == ']' || c == ',' || c == '='
  }

  /** Position of the first delimiter, or the length. */
  function UntilDelim(s: string): (k: nat)
    ensures k <= |s| && (k < |s| ==> IsDelim(s[k])) && forall i :: 0 <= i < k ==> !IsDelim(s[i])
  {
    if s == "" || IsDelim(s[0]) then 0 else 1 + UntilDelim(s[1..])
  }

  function Trimmed(s: string): (t: string)
    ensures t <= s && (t != "" ==> !IsSpace(t[|t| - 1])) && forall i :: |t| <= i < |s| ==> IsSpace(s[i])
  {
    if s == "" then "" else if IsSpace(s[|s| - 1]) then Trimmed(s[..|s| - 1]) else s
  }

  datatype TokenResult = Token(text: string, delim: char, rest: string) | NoToken

  /** next_token.  Without a delimiter ahead the reading never ends. */
  function NextToken(s: string): (r: TokenResult)
    ensures r.Token? ==> |r.rest| < |s|
  {
    var t := SkipSpaces(s);
    var k := UntilDelim(t);
    if k == |t| then NoToken
    else Token(Trimmed(t[..if k <= TOKEN_MAX then k else TOKEN_MAX]), t[k], t[k + 1..])
  }

  /** expect: the rest behind the wanted character, or the error exit. */
  function Expected(s: string, want: char): (r: Option<string>)
    ensures r.Some? ==> |r.value| < |s|
  {
    var t := SkipSpaces(s);
    if t != "" && t[0] == want then Some(t[1..]) else None
  }

  // ----- nodes -----

  /** "none" is read as if it were "all". */
  function PermOf(text: string, was: Perm): Perm {
    if text == "none" then PermAll else if text == "owner" then PermOwner else if text == "all" then PermAll else was
  }

  /** atoi of the host: also a plus sign is taken. */
  function HostNumber(s: string): int {
    var r := SkipSpaces(s);
    if r != "" && r[0] == '+' then Decimal(DigitRun(r[1..])) else Number(s)
  }

  predicate IsTextKey(key: string) {
    key in ["name", "exec", "read", "write", "owner", "actual", "dest"]
  }

  /** Keys that not every kind of node has. */
  predicate Allowed(kind: Kind, key: string) {
    (key == "actual" ==> kind.FileKind?) && (key == "dest" ==> kind.IndirectKind?)
        && (key == "contents" ==> kind.DirKind?)
  }

  function WithField(n: PNode, key: string, text: string): PNode {
    if key == "name" then n.(name := Some(text))
    else if key == "exec" then n.(perms := n.perms.(exec := PermOf(text, n.perms.exec)))
    else if key == "read" then n.(perms := n.perms.(read := PermOf(text, n.perms.read)))
    else if key == "write" then n.(perms := n.perms.(write := PermOf(text, n.perms.write)))
    else if key == "owner" then n.(owner := HostNumber(text))
    else if key == "actual" then n.(load := Actual(text))
    else if key == "dest" then n.(load := Dest(text))
    else n
  }

  function KindOf(c: char): Option<Kind> {
    if c == 'f' then Some(FileKind) else if c == 'd' then Some(DirKind) else if c == 'i' then Some(IndirectKind)
        else None
  }

  /** A node and what follows it; nothing but space before the end of the input; the error exit; or
      no return at all. */
  datatype Outcome = Parsed(node: PNode, rest: string) | AtEnd | Wrong | Endless

  datatype ListOutcome = Entries(list: seq<PNode>, rest: string) | ListWrong | ListEndless

  function AddFront(front: seq<PNode>, r: ListOutcome): ListOutcome {
    if r.Entries? then Entries(front + r.list, r.rest) else r
  }

  /** parse_next */
  function ParseNext(s: string, d: Perms): (r: Outcome)
    ensures r.Parsed? ==> |r.rest| < |s|
    decreases |s|, 1
  {
    var t := SkipSpaces(s);
    if t == "" then AtEnd
    else
      match Expected(t[1..], ':')
      case None => Wrong
      case Some(u) =>
        match Expected(u, '[')
        case None => Wrong
        case Some(v) =>
          match KindOf(t[0])
          case None => Wrong
          case Some(kind) => ParseFields(v, PNode(kind, None, d, 0, Unset))
  }

  /** The loop of parse_next, with the node as far as it is known. */
  function ParseFields(s: string, n: PNode): (r: Outcome)
    ensures r.Parsed? ==> |r.rest| < |s|
    decreases |s|, 0
  {
    match NextToken(s)
    case NoToken => Endless
    case Token(key, delim, v) =>
      if delim != '=' || !(IsTextKey(key) || key == "contents") || !Allowed(n.kind, key) then Wrong
      else if key == "contents" then
        match ParseContents(v, n.perms)
        case ListWrong => Wrong
        case ListEndless => Endless
        case Entries(list, rest) => AfterField(rest, n.(load := Contents(list)))
      else
        match NextToken(v)
        case NoToken => Endless
        case Token(text, end, rest) =>
          var n' := WithField(n, key, text);
          if end == ']' then Parsed(n', rest) else ParseFields(rest, n')
  }

  /** What comes after a closing brace: a bracket ends the node, any other character is passed over. */
  function AfterField(s: string, n: PNode): (r: Outcome)
    ensures r.Parsed? ==> |r.rest| < |s|
    decreases |s|, 0
  {
    var t := SkipSpaces(s);
    if t == "" then Endless
    else if t[0] == ']' then Parsed(n, t[1..])
    else ParseFields(t[1..], n)
  }

  /** A list of entries in braces. */
  function ParseContents(s: string, d: Perms): (r: ListOutcome)
    ensures r.Entries? ==> |r.rest| < |s|
    decreases |s|, 0
  {
    match Expected(s, '{')
    case None => ListWrong
    case Some(u) =>
      var t := SkipSpaces(u);
      if t != "" && t[0] == '}' then Entries([], t[1..]) else ParseEntries(t, d)
  }

  /** Entries up to the closing brace; the end of the input ends the list, too. */
  function ParseEntries(s: string, d: Perms): (r: ListOutcome)
    ensures r.Entries? ==> |r.rest| <= |s|
    decreases |s|, 2
  {
    match ParseNext(s, d)
    case Wrong => ListWrong
    case Endless => ListEndless
    case AtEnd => Entries([], "")
    case Parsed(n, rest) => AddFront([n], ParseMore(rest, d))
  }

  function ParseMore(s: string, d: Perms): (r: ListOutcome)
    ensures r.Entries? ==> |r.rest| <= |s|
    decreases |s|, 3
  {
    var t := SkipSpaces(s);
    if t != "" && t[0] == '}' then Entries([], t[1..]) else ParseEntries(t, d)
  }

  // ----- the parser on its stream -----

  datatype Result = Node(node: PNode) | NoNode | Failed | Hung

  class Parser {
    const input: string
    var pos: nat

    constructor (input: string)
      ensures this.input == input && pos == 0 && Valid()
    {
      this.input, pos := input, 0;
    }

    ghost predicate Valid()
      reads this
    {
      pos <= |input|
    }

    /** What has not been read. */
    ghost function Ahead(): string
      requires Valid()
      reads this
    {
      input[pos..]
    }

    method IgnoreWhitespace()
      requires Valid()
      modifies this
      ensures Valid() && pos >= old(pos) && Ahead() == SkipSpaces(old(Ahead()))
    {
      while pos < |input| && IsSpace(input[pos])
        invariant Valid() && pos >= old(pos) && SkipSpaces(Ahead()) == SkipSpaces(old(Ahead()))
      {
        assert Ahead()[1..] == input[pos + 1..];
        pos := pos + 1;
      }
    }

    method Expect(want: char) returns (ok: bool)
      requires Valid()
      modifies this
      ensures Valid() && pos >= old(pos) && (ok <==> Expected(old(Ahead()), want).Some?)
      ensures ok ==> pos > old(pos) && Expected(old(Ahead()), want) == Some(Ahead())
    {
      hide SkipSpaces;
      IgnoreWhitespace();
      if pos == |input| || input[pos] != want { return false; }
      assert Ahead()[1..] == input[pos + 1..];
      pos := pos + 1;
      ok := true;
    }

    /** The scan for a delimiter: where it is, or the end of the input. */
    method FindDelim() returns (k: nat)
      requires Valid()
      ensures k == UntilDelim(Ahead())
    {
      k := 0;
      while pos + k < |input| && !IsDelim(input[pos + k])
        invariant pos + k <= |input| && UntilDelim(Ahead()) == k + UntilDelim(input[pos + k..])
      {
        assert input[pos + k..][1..] == input[pos + k + 1..];
        k := k + 1;
      }
    }

    /** The length of a buffer without its trailing space. */
    method TrimmedLength(buf: string) returns (j: nat)
      ensures j <= |buf| && buf[..j] == Trimmed(buf)
    {
      j := 0;
      var i := 0;
      assert buf[..0] == "";
      while i < |buf|
        invariant j <= i <= |buf| && buf[..j] == Trimmed(buf[..i])
      {
        assert buf[..i + 1][..i] == buf[..i];
        if !IsSpace(buf[i]) { j := i + 1; }
        i := i + 1;
      }
      assert buf[..|buf|] == buf;
    }

    method ReadToken() returns (r: Option<(string, char)>)
      requires Valid()
      modifies this
      ensures Valid() && pos >= old(pos)
      ensures match NextToken(old(Ahead()))
              case NoToken => r == None
              case Token(text, delim, rest) => r == Some((text, delim)) && Ahead() == rest && pos > old(pos)
    {
      hide SkipSpaces, UntilDelim, Trimmed;
      IgnoreWhitespace();
      var k := FindDelim();
      if pos + k == |input| { return None; }
      var n := if k <= TOKEN_MAX then k else TOKEN_MAX;
      ghost var t := Ahead();
      var buffer := input[pos..pos + n];
      assert buffer == t[..n];
      var j := TrimmedLength(buffer);
      r := Some((buffer[..j], input[pos + k]));
      assert t[k + 1..] == input[pos + k + 1..];
      pos := pos + k + 1;
    }

    method ParseNode(d: Perms) returns (r: Result)
      requires Valid()
      modifies this
      ensures Valid() && pos >= old(pos)
      ensures match ParseNext(old(Ahead()), d)
              case AtEnd => r == NoNode && Ahead() == ""
              case Wrong => r == Failed
              case Endless => r == Hung
              case Parsed(n, rest) => r == Node(n) && Ahead() == rest && pos > old(pos)
      decreases |input| - pos, 1
    {
      hide SkipSpaces, NextToken, ParseFields, Expected;
      IgnoreWhitespace();
      if pos == |input| { return NoNode; }
      ghost var t := Ahead();
      var typeChar := input[pos];
      assert t[1..] == input[pos + 1..];
      pos := pos + 1;
      var ok := Expect(':');
      if !ok { return Failed; }
      ok := Expect('[');
      if !ok { return Failed; }
      var kind := KindOf(typeChar);
      if kind.None? { return Failed; }
      r := ParseLoop(PNode(kind.value, None, d, 0, Unset));
    }

    /** The loop over the fields. */
    method ParseLoop(first: PNode) returns (r: Result)
      requires Valid()
      modifies this
      ensures Valid() && pos >= old(pos)
      ensures match ParseFields(old(Ahead()), first)
              case AtEnd => false
              case Wrong => r == Failed
              case Endless => r == Hung
              case Parsed(n, rest) => r == Node(n) && Ahead() == rest && pos > old(pos)
      decreases |input| - pos, 0
    {
      hide SkipSpaces, NextToken, ParseContents, WithField, Allowed, AfterField;
      var n := first;
      while true
        invariant Valid() && pos >= old(pos)
        invariant ParseFields(Ahead(), n) == ParseFields(old(Ahead()), first)
        decreases |input| - pos
      {
        var key := ReadToken();
        if key.None? { return Hung; }
        if key.value.1 != '=' { return Failed; }
        var k := key.value.0;
        if !(IsTextKey(k) || k == "contents") || !Allowed(n.kind, k) { return Failed; }
        if k == "contents" {
          var list, how := ParseList(n.perms);
          if how == Failed || how == Hung { return how; }
          n := n.(load := Contents(list));
          AfterStep(Ahead(), n);
          IgnoreWhitespace();
          if pos == |input| { return Hung; }
          assert Ahead()[1..] == input[pos + 1..];
          pos := pos + 1;
          if input[pos - 1] == ']' { return Node(n); }
        } else {
          var text := ReadToken();
          if text.None? { return Hung; }
          n := WithField(n, k, text.value.0);
          if text.value.1 == ']' { return Node(n); }
        }
      }
    }

    /** The entries in braces.  NoNode stands for a list that was read. */
    method ParseList(d: Perms) returns (list: seq<PNode>, how: Result)
      requires Valid()
      modifies this
      ensures Valid() && pos >= old(pos)
      ensures match ParseContents(old(Ahead()), d)
              case ListWrong => how == Failed
              case ListEndless => how == Hung
              case Entries(l, rest) => how == NoNode && list == l && Ahead() == rest && pos > old(pos)
      decreases |input| - pos, 0
    {
      hide SkipSpaces, Expected, ParseNext, ParseEntries, ParseMore;
      list := [];
      var ok := Expect('{');
      if !ok { return [], Failed; }
      IgnoreWhitespace();
      if pos < |input| && input[pos] == '}' {
        assert Ahead()[1..] == input[pos + 1..];
        pos := pos + 1;
        return [], NoNode;
      }
      ghost var from := Ahead();
      EntriesStep(from, d);
      var sub := ParseNode(d);
      if sub == Failed || sub == Hung { return [], sub; }
      while sub.Node?
        invariant Valid() && pos > old(pos) && (sub.Node? || sub == NoNode)
        invariant sub.Node? ==> AddFront(list + [sub.node], ParseMore(Ahead(), d)) == ParseEntries(from, d)
        invariant sub == NoNode ==> ParseEntries(from, d) == Entries(list, Ahead())
        decreases |input| - pos, sub.Node?
      {
        list := list + [sub.node];
        MoreStep(Ahead(), d);
        IgnoreWhitespace();
        if pos < |input| && input[pos] == '}' {
          assert Ahead()[1..] == input[pos + 1..];
          pos := pos + 1;
          assert list + [] == list;
          return list, NoNode;
        }
        EntriesStep(Ahead(), d);
        ghost var more := Ahead();
        sub := ParseNode(d);
        if sub == Failed || sub == Hung { return list, sub; }
        FrontOfFront(list, more, Ahead(), sub, d);
      }
      how := NoNode;
    }
  }

  lemma AfterStep(s: string, n: PNode)
    ensures AfterField(s, n) ==
              var t := SkipSpaces(s);
              if t == "" then Endless else if t[0] == ']' then Parsed(n, t[1..]) else ParseFields(t[1..], n)
  {
  }

  lemma EntriesStep(s: string, d: Perms)
    ensures ParseEntries(s, d) ==
              match ParseNext(s, d)
              case Wrong => ListWrong
              case Endless => ListEndless
              case AtEnd => Entries([], "")
              case Parsed(n, rest) => AddFront([n], ParseMore(rest, d))
  {
  }

  lemma MoreStep(s: string, d: Perms)
    ensures ParseMore(s, d) ==
              var t := SkipSpaces(s);
              if t != "" && t[0] == '}' then Entries([], t[1..]) else ParseEntries(t, d)
  {
  }

  /** Putting entries in front one after another. */
  lemma FrontOfFront(list: seq<PNode>, s: string, rest: string, sub: Result, d: Perms)
    requires sub.Node? ==> ParseEntries(s, d) == AddFront([sub.node], ParseMore(rest, d))
    requires sub == NoNode ==> ParseEntries(s, d) == Entries([], "")
    ensures sub.Node? ==> AddFront(list, ParseEntries(s, d)) == AddFront(list + [sub.node], ParseMore(rest, d))
    ensures sub == NoNode ==> AddFront(list, ParseEntries(s, d)) == Entries(list, "")
  {
    hide ParseEntries, ParseMore;
    assert list + [] == list;
    if sub.Node? && ParseMore(rest, d).Entries? {
      var l := ParseMore(rest, d).list;
      assert list + ([sub.node] + l) == (list + [sub.node]) + l;
    }
  }
}
