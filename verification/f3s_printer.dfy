/** The .f3s language: which texts the parser reads as a node, and what it makes of them. */
module F3sPrinter {
  import opened Options
  import opened Numbers
  import opened F3sParser

  /** A node as it is written.  The strings named w are space; keys and texts have the space around them. */
  datatype Written = Written(w0: string, kind: Kind, w1: string, w2: string, fields: seq<Field>)

  /** A field ends at a delimiter; behind a list any other character stands for one. */
  datatype Field =
    | TextField(key: string, text: string, end: char)
    | ListField(key: string, w0: string, entries: seq<Written>, w1: string, w2: string, end: char)

  function KindChar(k: Kind): char {
    match k
    case FileKind => 'f'
    case DirKind => 'd'
    case IndirectKind => 'i'
  }

  // ----- the text -----

  function Show(w: Written): string
    decreases w, 1
  {
    w.w0 + [KindChar(w.kind)] + w.w1 + ":" + w.w2 + "[" + ShowFields(w.fields)
  }

  function ShowFields(fs: seq<Field>): string
    decreases fs, 1
  {
    if fs == [] then "" else ShowField(fs[0]) + ShowFields(fs[1..])
  }

  function ShowField(f: Field): string
    decreases f, 0
  {
    match f
    case TextField(key, text, end) => key + "=" + text + [end]
    case ListField(key, w0, entries, w1, w2, end) =>
      key + "=" + w0 + "{" + ShowAll(entries) + w1 + "}" + w2 + [end]
  }

  function ShowAll(ws: seq<Written>): string
    decreases ws, 0
  {
    if ws == [] then "" else Show(ws[0]) + ShowAll(ws[1..])
  }

  // ----- what is well written -----

  predicate Space(s: string) {
    forall i :: 0 <= i < |s| ==> IsSpace(s[i])
  }

  predicate NoDelim(s: string) {
    forall i :: 0 <= i < |s| ==> !IsDelim(s[i])
  }

  /** The word that stands in a stretch of text: without the space around it, and cut at 1023 characters. */
  function Word(raw: string): string {
    var t := SkipSpaces(raw);
    Trimmed(t[..if |t| <= 1023 then |t| else 1023])
  }

  /** A text that survives as a token: no delimiter, no space at its ends, at most 1023 characters. */
  predicate Clean(s: string) {
    |s| <= 1023 && NoDelim(s) && (s != "" ==> !IsSpace(s[0]) && !IsSpace(s[|s| - 1]))
  }

  predicate WellWritten(w: Written)
    decreases w, 1
  {
    Space(w.w0) && Space(w.w1) && Space(w.w2) && FieldsWell(w.fields, w.kind) && Closed(w.fields)
  }

  /** The closing bracket is behind the last field and behind no other. */
  predicate Closed(fs: seq<Field>) {
    fs != [] && forall i :: 0 <= i < |fs| ==> (fs[i].end == ']' <==> i == |fs| - 1)
  }

  predicate FieldsWell(fs: seq<Field>, kind: Kind)
    decreases fs, 1
  {
    fs != [] ==> FieldWell(fs[0], kind) && FieldsWell(fs[1..], kind)
  }

  predicate FieldWell(f: Field, kind: Kind)
    decreases f, 0
  {
    match f
    case TextField(key, text, end) =>
      NoDelim(key) && NoDelim(text) && IsDelim(end) && IsTextKey(Word(key)) && Allowed(kind, Word(key))
    case ListField(key, w0, entries, w1, w2, end) =>
      && NoDelim(key) && Word(key) == "contents" && kind.DirKind?
      && Space(w0) && Space(w1) && Space(w2) && !IsSpace(end) && AllWell(entries)
  }

  predicate AllWell(ws: seq<Written>)
    decreases ws, 0
  {
    ws != [] ==> WellWritten(ws[0]) && AllWell(ws[1..])
  }

  // ----- what it means -----

  /** A node whose defaults are d: its fields take effect in order, and its entries default to the
      permissions known when they come. */
  function Meaning(w: Written, d: Perms): PNode
    decreases w, 1
  {
    MeaningOfFields(w.fields, PNode(w.kind, None, d, 0, Unset))
  }

  function MeaningOfFields(fs: seq<Field>, n: PNode): PNode
    decreases fs, 1
  {
    if fs == [] then n else MeaningOfFields(fs[1..], MeaningOfField(fs[0], n))
  }

  function MeaningOfField(f: Field, n: PNode): PNode
    decreases f, 0
  {
    match f
    case TextField(key, text, _) => WithField(n, Word(key), Word(text))
    case ListField(_, _, entries, _, _, _) => n.(load := Contents(MeaningOfAll(entries, n.perms)))
  }

  function MeaningOfAll(ws: seq<Written>, d: Perms): (ns: seq<PNode>)
    ensures |ns| == |ws|
    decreases ws, 0
  {
    if ws == [] then [] else [Meaning(ws[0], d)] + MeaningOfAll(ws[1..], d)
  }

  // ----- tokens in text -----

  lemma ExpectsAfterSpace(w: string, c: char, s: string)
    requires Space(w) && !IsSpace(c)
    ensures Expected(w + [c] + s, c) == Some(s)
  {
    SkipsSpace(w, [c] + s);
    assert w + [c] + s == w + ([c] + s);
    assert ([c] + s)[1..] == s;
  }

  lemma {:induction false} FindsDelim(t: string, c: char, s: string)
    requires IsDelim(c) && forall i :: 0 <= i < |t| ==> !IsDelim(t[i])
    ensures UntilDelim(t + [c] + s) == |t|
  {
    var a := t + [c] + s;
    if t != "" {
      FindsDelim(t[1..], c, s);
      assert a[1..] == t[1..] + [c] + s;
    }
  }

  lemma {:induction false} TrimsSpace(t: string, w: string)
    requires Space(w) && (t != "" ==> !IsSpace(t[|t| - 1]))
    ensures Trimmed(t + w) == t
  {
    if w == "" {
      assert t + w == t;
    } else {
      TrimsSpace(t, w[..|w| - 1]);
      assert (t + w)[..|t + w| - 1] == t + w[..|w| - 1];
    }
  }

  lemma {:induction false} SkipsInFront(a: string, t: string)
    requires t != "" && !IsSpace(t[0])
    ensures SkipSpaces(a + t) == SkipSpaces(a) + t
  {
    if a == "" {
      assert a + t == t;
    } else {
      SkipsInFront(a[1..], t);
      assert (a + t)[1..] == a[1..] + t;
    }
  }

  lemma {:induction false} SkippedIsSpace(s: string)
    ensures var w := s[..|s| - |SkipSpaces(s)|]; Space(w) && s == w + SkipSpaces(s)
  {
    if s != "" && IsSpace(s[0]) {
      SkippedIsSpace(s[1..]);
      var w := s[1..][..|s[1..]| - |SkipSpaces(s)|];
      assert s[..|s| - |SkipSpaces(s)|] == [s[0]] + w;
    }
  }

  lemma DelimIsNoSpace(c: char)
    requires IsDelim(c)
    ensures !IsSpace(c)
  {
  }

  /** A stretch of text up to a delimiter is read as its word. */
  lemma ReadsWord(raw: string, c: char, s: string)
    requires NoDelim(raw) && IsDelim(c)
    ensures NextToken(raw + [c] + s) == Token(Word(raw), c, s)
  {
    hide SkipSpaces, UntilDelim, Trimmed, IsDelim, IsSpace;
    var t := SkipSpaces(raw);
    DelimIsNoSpace(c);
    assert raw + [c] + s == raw + ([c] + s);
    SkipsInFront(raw, [c] + s);
    SkippedIsSpace(raw);
    assert forall i :: 0 <= i < |t| ==> t[i] == raw[|raw| - |t| + i];
    var u := t + [c] + s;
    assert u == t + ([c] + s);
    FindsDelim(t, c, s);
    var n := if |t| <= 1023 then |t| else 1023;
    assert u[..n] == t[..n] && u[|t|] == c && u[|t| + 1..] == s;
  }

  /** ... and every token that is read is one. */
  lemma TokenIsWord(s: string) returns (raw: string)
    requires NextToken(s).Token?
    ensures var r := NextToken(s);
            s == raw + [r.delim] + r.rest && NoDelim(raw) && IsDelim(r.delim) && r.text == Word(raw)
  {
    hide Trimmed, SkipSpaces, IsSpace, IsDelim, Word;
    var t := SkipSpaces(s);
    var k := UntilDelim(t);
    SkippedIsSpace(s);
    var w := s[..|s| - |t|];
    raw := w + t[..k];
    SpaceHasNoDelim(w);
    Rejoined(s, w, t, k);
    ReadsWord(raw, t[k], t[k + 1..]);
  }

  lemma Rejoined(s: string, w: string, t: string, k: nat)
    requires s == w + t && k < |t|
    ensures s == w + t[..k] + [t[k]] + t[k + 1..]
  {
  }

  lemma WordIsClean(raw: string)
    requires NoDelim(raw)
    ensures Clean(Word(raw))
  {
    hide IsDelim, IsSpace, SkipSpaces, Trimmed;
    SkippedIsSpace(raw);
    var t := SkipSpaces(raw);
    var u := t[..if |t| <= 1023 then |t| else 1023];
    PrefixHas(Trimmed(u), u);
    forall i | 0 <= i < |Trimmed(u)|
      ensures !IsDelim(Trimmed(u)[i])
    {
      assert Trimmed(u)[i] == raw[|raw| - |t| + i];
    }
  }

  lemma PrefixHas(a: string, b: string)
    requires a <= b
    ensures |a| <= |b| && forall i :: 0 <= i < |a| ==> a[i] == b[i]
  {
  }

  /** A clean text with space on either side is read as that text. */
  lemma ReadsToken(w: string, text: string, w': string, c: char, s: string)
    requires Space(w) && Clean(text) && Space(w') && IsDelim(c)
    ensures Word(w + text + w') == text && NextToken(w + text + w' + [c] + s) == Token(text, c, s)
  {
    hide SkipSpaces, UntilDelim, Trimmed, NextToken;
    var raw := w + text + w';
    SpaceHasNoDelim(w);
    SpaceHasNoDelim(w');
    ReadsWord(raw, c, s);
    if text == "" {
      assert raw == w + w' + "";
      SkipsSpace(w + w', "");
      TrimsSpace("", "");
    } else {
      assert raw == w + (text + w');
      SkipsSpace(w, text + w');
      var n := if |text + w'| <= 1023 then |text + w'| else 1023;
      assert (text + w')[..n] == text + w'[..n - |text|];
      TrimsSpace(text, w'[..n - |text|]);
    }
  }

  /** Of a longer text the first 1023 characters are read. */
  lemma LongTokenIsCut(text: string, c: char, s: string)
    requires |text| > 1023 && NoDelim(text) && IsDelim(c) && !IsSpace(text[0]) && !IsSpace(text[1022])
    ensures NextToken(text + [c] + s) == Token(text[..1023], c, s)
  {
    hide SkipSpaces, UntilDelim, Trimmed, NextToken;
    ReadsWord(text, c, s);
    assert "" + text == text;
    SkipsSpace("", text);
    assert text[..1023] + "" == text[..1023];
    TrimsSpace(text[..1023], "");
  }

  /** Clean text stands for itself. */
  lemma CleanIsWord(text: string)
    requires Clean(text)
    ensures Word(text) == text
  {
    hide Word, Clean;
    ReadsToken("", text, "", ',', "");
    assert "" + text + "" == text;
  }

  lemma SpaceHasNoDelim(w: string)
    requires Space(w)
    ensures forall i :: 0 <= i < |w| ==> !IsDelim(w[i])
  {
  }

  lemma KeyIsClean(key: string)
    requires IsTextKey(key) || key == "contents"
    ensures Clean(key)
  {
  }

  // ----- the parser reads what is written -----

  lemma {:induction false} SkipTwice(s: string)
    ensures SkipSpaces(SkipSpaces(s)) == SkipSpaces(s)
  {
    if s != "" && IsSpace(s[0]) { SkipTwice(s[1..]); }
  }

  lemma NextAfterSpace(s: string, d: Perms)
    ensures ParseNext(SkipSpaces(s), d) == ParseNext(s, d)
  {
    hide ParseFields, Expected;
    SkipTwice(s);
  }

  /** The node that was written is the node that is parsed, and nothing behind it is touched. */
  lemma {:induction false} NodeReads(w: Written, d: Perms, rest: string)
    requires WellWritten(w)
    ensures ParseNext(Show(w) + rest, d) == Parsed(Meaning(w, d), rest)
    decreases w, 1
  {
    hide ParseFields, ShowFields, MeaningOfFields, Expected, SkipSpaces, FieldsWell;
    var c := KindChar(w.kind);
    var v := ShowFields(w.fields) + rest;
    var u := w.w2 + "[" + v;
    var t := [c] + (w.w1 + ":" + u);
    assert Show(w) + rest == w.w0 + t;
    SkipsSpace(w.w0, t);
    assert t[1..] == w.w1 + [':'] + u;
    ExpectsAfterSpace(w.w1, ':', u);
    assert u == w.w2 + ['['] + v;
    ExpectsAfterSpace(w.w2, '[', v);
    FieldsRead(w.fields, PNode(w.kind, None, d, 0, Unset), rest);
  }

  lemma {:induction false} FieldsRead(fs: seq<Field>, n: PNode, rest: string)
    requires FieldsWell(fs, n.kind) && Closed(fs)
    ensures ParseFields(ShowFields(fs) + rest, n) == Parsed(MeaningOfFields(fs, n), rest)
    decreases fs, 1
  {
    hide ShowField, FieldWell, ParseFields, MeaningOfField;
    var f, n' := fs[0], MeaningOfField(fs[0], n);
    KindStays(f, n);
    assert ShowFields(fs) + rest == ShowField(f) + (ShowFields(fs[1..]) + rest);
    FieldReads(f, n, ShowFields(fs[1..]) + rest);
    if |fs| == 1 {
      assert fs[1..] == [] && ShowFields(fs[1..]) + rest == rest;
    } else {
      ClosedRest(fs);
      FieldsRead(fs[1..], n', rest);
    }
  }

  lemma ClosedRest(fs: seq<Field>)
    requires Closed(fs) && |fs| > 1
    ensures fs[0].end != ']' && Closed(fs[1..])
  {
  }

  lemma KindStays(f: Field, n: PNode)
    ensures MeaningOfField(f, n).kind == n.kind
  {
  }

  lemma {:induction false} FieldReads(f: Field, n: PNode, s: string)
    requires FieldWell(f, n.kind)
    ensures ParseFields(ShowField(f) + s, n)
            == if f.end == ']' then Parsed(MeaningOfField(f, n), s) else ParseFields(s, MeaningOfField(f, n))
    decreases f, 0
  {
    hide NextToken, SkipSpaces, Show, ShowAll, MeaningOfAll, AllWell, WithField, Expected, IsTextKey, Allowed, NoDelim,
      Word, ParseContents;
    match f {
      case TextField(key, text, end) => {
        var v := text + [end] + s;
        assert ShowField(f) + s == key + ['='] + v;
        ReadsWord(key, '=', v);
        ReadsWord(text, end, s);
        NotContents(Word(key));
      }
      case ListField(key, w0, entries, w1, w2, end) => {
        var after := w2 + ([end] + s);
        var u := ShowAll(entries) + w1 + "}" + after;
        var v := w0 + ['{'] + u;
        assert ShowField(f) + s == key + ['='] + v;
        ReadsWord(key, '=', v);
        ExpectsAfterSpace(w0, '{', u);
        ListReads(entries, w1, n.perms, after);
        ContentsAreMore(v, u, n.perms);
        ContentsAllowed(n.kind);
        SkipsSpace(w2, [end] + s);
        assert ([end] + s)[1..] == s;
      }
    }
  }

  lemma NotContents(key: string)
    requires IsTextKey(key)
    ensures key != "contents"
  {
  }

  lemma ContentsAllowed(kind: Kind)
    requires kind.DirKind?
    ensures Allowed(kind, "contents")
  {
  }

  lemma ContentsAreMore(v: string, u: string, d: Perms)
    requires Expected(v, '{') == Some(u)
    ensures ParseContents(v, d) == ParseMore(u, d)
  {
    hide ParseEntries, SkipSpaces;
  }

  lemma {:induction false} ListReads(entries: seq<Written>, w: string, d: Perms, rest: string)
    requires AllWell(entries) && Space(w)
    ensures ParseMore(ShowAll(entries) + w + "}" + rest, d) == Entries(MeaningOfAll(entries, d), rest)
    decreases entries, 0
  {
    hide ParseNext, SkipSpaces, Show, Meaning, WellWritten;
    var s := ShowAll(entries) + w + "}" + rest;
    if entries == [] {
      SkipsSpace(w, "}" + rest);
      assert s == w + ("}" + rest);
      assert ("}" + rest)[1..] == rest;
    } else {
      var more := ShowAll(entries[1..]) + w + "}" + rest;
      assert s == Show(entries[0]) + more;
      NodeReads(entries[0], d, more);
      ListReads(entries[1..], w, d, rest);
      NextAfterSpace(s, d);
      StartsWithKind(entries[0], more);
    }
  }

  lemma StartsWithKind(w: Written, more: string)
    requires WellWritten(w)
    ensures SkipSpaces(Show(w) + more) != "" && SkipSpaces(Show(w) + more)[0] != '}'
  {
    hide ShowFields, SkipSpaces, FieldsWell;
    var t := [KindChar(w.kind)] + w.w1 + ":" + w.w2 + "[" + ShowFields(w.fields) + more;
    assert Show(w) + more == w.w0 + t;
    SkipsSpace(w.w0, t);
  }

  // ----- nothing else is read -----

  lemma ExpectedIs(s: string, c: char) returns (w: string)
    requires Expected(s, c).Some?
    ensures s == w + [c] + Expected(s, c).value && Space(w)
  {
    hide SkipSpaces;
    SkippedIsSpace(s);
    var t := SkipSpaces(s);
    w := s[..|s| - |t|];
    assert t == [c] + t[1..];
  }

  /** Every text that is parsed as a node begins with the node, well written, and what follows is left. */
  lemma {:induction false} NodeIsWritten(s: string, d: Perms) returns (w: Written)
    requires ParseNext(s, d).Parsed?
    ensures WellWritten(w) && s == Show(w) + ParseNext(s, d).rest && Meaning(w, d) == ParseNext(s, d).node
    decreases |s|, 1
  {
    hide ParseFields, ShowFields, MeaningOfFields, Expected, SkipSpaces, FieldsWell, Closed, Space;
    var t := SkipSpaces(s);
    SkippedIsSpace(s);
    var w0 := s[..|s| - |t|];
    var w1 := ExpectedIs(t[1..], ':');
    var u := Expected(t[1..], ':').value;
    var w2 := ExpectedIs(u, '[');
    var v, kind, rest := Expected(u, '[').value, KindOf(t[0]).value, ParseNext(s, d).rest;
    var fs := FieldsAreWritten(v, PNode(kind, None, d, 0, Unset));
    w := Written(w0, kind, w1, w2, fs);
    assert t == [t[0]] + t[1..] && [KindChar(kind)] == [t[0]];
    NodeRejoined(s, w0, [t[0]], w1, w2, ShowFields(fs), rest);
  }

  lemma NodeRejoined(s: string, w0: string, k: string, w1: string, w2: string, f: string, rest: string)
    requires s == w0 + (k + (w1 + [':'] + (w2 + ['['] + (f + rest))))
    ensures s == w0 + k + w1 + ":" + w2 + "[" + f + rest
  {
  }

  lemma {:induction false} FieldsAreWritten(s: string, n: PNode) returns (fs: seq<Field>)
    requires ParseFields(s, n).Parsed?
    ensures FieldsWell(fs, n.kind) && Closed(fs)
    ensures s == ShowFields(fs) + ParseFields(s, n).rest && MeaningOfFields(fs, n) == ParseFields(s, n).node
    decreases |s|, 0
  {
    hide NextToken, WithField, Word, NoDelim, IsTextKey, Allowed, ParseContents, AfterField, ShowFields,
      MeaningOfFields,
      FieldsWell, Closed, ShowAll, MeaningOfAll, AllWell, IsDelim, Space, IsSpace;
    var rest := ParseFields(s, n).rest;
    var v := NextToken(s).rest;
    var key := TokenIsWord(s);
    NextShrinks(s);
    if NextToken(s).text == "contents" {
      var w0, entries, w1 := ContentsAreWritten(v, n.perms);
      var after := ParseContents(v, n.perms).rest;
      var m := n.(load := Contents(ParseContents(v, n.perms).list));
      var w2, end, more := RestIsWritten(after, m);
      var f := ListField(key, w0, entries, w1, w2, end);
      ContentsKind(n.kind);
      fs := [f] + more;
      OnTop(f, more, n);
      ListRejoined(s, key, w0, ShowAll(entries), w1, w2, [end], ShowFields(more), rest);
    } else {
      var text := TokenIsWord(v);
      var end, u := NextToken(v).delim, NextToken(v).rest;
      NextShrinks(v);
      var f := TextField(key, text, end);
      var more := [];
      if end == ']' {
        NoneLeft(u, MeaningOfField(f, n));
      } else {
        more := FieldsAreWritten(u, MeaningOfField(f, n));
        KindStays(f, n);
      }
      fs := [f] + more;
      OnTop(f, more, n);
      assert u == ShowFields(more) + rest;
      TextRejoined(s, key, text, [end], ShowFields(more), rest);
    }
  }

  lemma NextShrinks(s: string)
    requires NextToken(s).Token?
    ensures |NextToken(s).rest| < |s|
  {
  }

  lemma ContentsKind(kind: Kind)
    requires Allowed(kind, "contents")
    ensures kind.DirKind?
  {
  }

  lemma NoneLeft(u: string, n: PNode)
    ensures u == ShowFields([]) + u && MeaningOfFields([], n) == n
  {
  }

  /** A field in front of others, or of none if it is the last. */
  lemma OnTop(f: Field, more: seq<Field>, n: PNode)
    requires FieldWell(f, n.kind)
    requires if f.end == ']' then more == [] else FieldsWell(more, n.kind) && Closed(more)
    ensures FieldsWell([f] + more, n.kind) && Closed([f] + more)
    ensures ShowFields([f] + more) == ShowField(f) + ShowFields(more)
    ensures MeaningOfFields([f] + more, n) == MeaningOfFields(more, MeaningOfField(f, n))
  {
    hide FieldWell, ShowField, MeaningOfField;
    assert ([f] + more)[1..] == more;
  }

  lemma TextRejoined(s: string, key: string, text: string, end: string, more: string, rest: string)
    requires s == key + ['='] + (text + end + (more + rest))
    ensures s == key + "=" + text + end + more + rest
  {
  }

  lemma ListRejoined(s: string, key: string, w0: string, es: string, w1: string, w2: string, end: string, more: string,
                     rest: string)
    requires s == key + ['='] + (w0 + "{" + es + w1 + "}" + (w2 + end + (more + rest)))
    ensures s == key + "=" + w0 + "{" + es + w1 + "}" + w2 + end + more + rest
  {
  }

  /** What follows a list: space, a character, and further fields unless it is the closing bracket. */
  lemma {:induction false} RestIsWritten(s: string, n: PNode) returns (w: string, end: char, fs: seq<Field>)
    requires AfterField(s, n).Parsed?
    ensures Space(w) && !IsSpace(end)
    ensures if end == ']' then fs == [] else FieldsWell(fs, n.kind) && Closed(fs)
    ensures s == w + [end] + (ShowFields(fs) + AfterField(s, n).rest)
    ensures MeaningOfFields(fs, n) == AfterField(s, n).node
    decreases |s|, 0
  {
    hide ParseFields, SkipSpaces, FieldsWell, Closed, Space, IsSpace;
    var t := SkipSpaces(s);
    SkippedIsSpace(s);
    w, end, fs := s[..|s| - |t|], t[0], [];
    assert t == [end] + t[1..];
    if end == ']' {
      NoneLeft(t[1..], n);
    } else {
      fs := FieldsAreWritten(t[1..], n);
    }
  }

  lemma {:induction false} ContentsAreWritten(s: string, d: Perms) returns (w0: string, es: seq<Written>, w1: string)
    requires ParseContents(s, d).Entries? && ParseContents(s, d).rest != ""
    ensures Space(w0) && Space(w1) && AllWell(es) && MeaningOfAll(es, d) == ParseContents(s, d).list
    ensures s == w0 + "{" + ShowAll(es) + w1 + "}" + ParseContents(s, d).rest
    decreases |s|, 0
  {
    hide ParseMore, Expected, SkipSpaces, AllWell, Space, ShowAll, MeaningOfAll;
    w0 := ExpectedIs(s, '{');
    var u := Expected(s, '{').value;
    ContentsAreMore(s, u, d);
    es, w1 := MoreAreWritten(u, d);
    ContentsRejoined(s, w0, ShowAll(es), w1, ParseMore(u, d).rest);
  }

  lemma ContentsRejoined(s: string, w0: string, es: string, w1: string, rest: string)
    requires s == w0 + ['{'] + (es + w1 + "}" + rest)
    ensures s == w0 + "{" + es + w1 + "}" + rest
  {
  }

  /** Entries up to the closing brace. */
  lemma {:induction false} MoreAreWritten(s: string, d: Perms) returns (es: seq<Written>, w: string)
    requires ParseMore(s, d).Entries? && ParseMore(s, d).rest != ""
    ensures Space(w) && AllWell(es) && MeaningOfAll(es, d) == ParseMore(s, d).list
    ensures s == ShowAll(es) + w + "}" + ParseMore(s, d).rest
    decreases |s|, 2
  {
    hide ParseNext, SkipSpaces, Show, WellWritten, Meaning, Space;
    var t, rest := SkipSpaces(s), ParseMore(s, d).rest;
    SkippedIsSpace(s);
    if t != "" && t[0] == '}' {
      es, w := [], s[..|s| - |t|];
      assert t == "}" + rest;
      assert "" + w == w;
    } else {
      NextAfterSpace(s, d);
      var e := NodeIsWritten(s, d);
      var u := ParseNext(s, d).rest;
      var more;
      more, w := MoreAreWritten(u, d);
      es := [e] + more;
      assert es[1..] == more;
      MoreRejoined(s, Show(e), ShowAll(more), w, rest);
    }
  }

  lemma MoreRejoined(s: string, e: string, more: string, w: string, rest: string)
    requires s == e + (more + w + "}" + rest)
    ensures s == e + more + w + "}" + rest
  {
  }

  /** The language: a text is parsed as node n with `rest` left over if and only if it is a well-written node
      that means n, and then `rest`. */
  lemma ParsedIffWritten(s: string, d: Perms, n: PNode, rest: string)
    ensures ParseNext(s, d) == Parsed(n, rest)
            <==> exists w :: WellWritten(w) && Meaning(w, d) == n && s == Show(w) + rest
  {
    hide ParseNext, WellWritten, Meaning, Show;
    if ParseNext(s, d) == Parsed(n, rest) { var w := NodeIsWritten(s, d); }
    forall w | WellWritten(w) && Meaning(w, d) == n && s == Show(w) + rest
      ensures ParseNext(s, d) == Parsed(n, rest)
    {
      NodeReads(w, d, rest);
    }
  }

  lemma {:induction false} NodesGoOn(s: string, n: PNode)
    ensures ParseFields(s, n) != AtEnd
    decreases |s|
  {
    hide NextToken, WithField, IsTextKey, Allowed, ParseContents, SkipSpaces;
    if NextToken(s).Token? {
      var v := NextToken(s).rest;
      NextShrinks(s);
      if NextToken(s).text == "contents" {
        var list := ParseContents(v, n.perms);
        var m := n.(load := Contents(if list.Entries? then list.list else []));
        if list.Entries? && SkipSpaces(list.rest) != "" { NodesGoOn(SkipSpaces(list.rest)[1..], m); }
      } else if NextToken(v).Token? {
        NextShrinks(v);
        NodesGoOn(NextToken(v).rest, WithField(n, NextToken(s).text, NextToken(v).text));
      }
    }
  }

  /** There is nothing left to parse if and only if there is nothing but space. */
  lemma AtEndIffSpace(s: string, d: Perms)
    ensures ParseNext(s, d) == AtEnd <==> Space(s)
  {
    hide ParseFields, Expected, SkipSpaces, IsSpace;
    SkippedIsSpace(s);
    if Space(s) {
      SkipsSpace(s, "");
      assert s + "" == s;
    } else {
      var u := Expected(SkipSpaces(s)[1..], ':');
      if u.Some? && Expected(u.value, '[').Some? && KindOf(SkipSpaces(s)[0]).Some? {
        NodesGoOn(Expected(u.value, '[').value, PNode(KindOf(SkipSpaces(s)[0]).value, None, d, 0, Unset));
      }
    }
  }

  // ----- permissions -----

  function PermAt(p: Perms, key: string): Perm {
    if key == "read" then p.read else if key == "write" then p.write else p.exec
  }

  predicate IsPermKey(key: string) {
    key == "read" || key == "write" || key == "exec"
  }

  /** The text states a permission: what else stands there changes nothing. */
  predicate States(text: string) {
    PermOf(text, PermNone) == PermOf(text, PermAll)
  }

  /** The last permission that the fields state for this key. */
  function LastStated(fs: seq<Field>, key: string): Option<Perm> {
    if fs == [] then None
    else
      match LastStated(fs[1..], key)
      case Some(p) => Some(p)
      case None =>
        if fs[0].TextField? && Word(fs[0].key) == key && States(Word(fs[0].text))
        then Some(PermOf(Word(fs[0].text), PermNone)) else None
  }

  /** The entries of a directory, and the fields written before them. */
  function Listed(fs: seq<Field>): Option<(seq<Written>, seq<Field>)> {
    if fs == [] then None
    else
      match Listed(fs[1..])
      case Some(l) => Some((l.0, [fs[0]] + l.1))
      case None => if fs[0].ListField? then Some((fs[0].entries, [])) else None
  }

  /** Following the path from w leads to a node. */
  predicate Leads(w: Written, path: seq<nat>)
    decreases |path|
  {
    path != [] ==> Listed(w.fields).Some? && path[0] < |Listed(w.fields).value.0|
                   && Leads(Listed(w.fields).value.0[path[0]], path[1..])
  }

  /** The permission stated nearest to the node at the end of the path: by itself, or else by the nearest
      directory around it that stated one before its list. */
  function Nearest(w: Written, path: seq<nat>, key: string): Option<Perm>
    requires Leads(w, path)
    decreases |path|
  {
    if path == [] then LastStated(w.fields, key)
    else
      var (entries, before) := Listed(w.fields).value;
      match Nearest(entries[path[0]], path[1..], key)
      case Some(p) => Some(p)
      case None => LastStated(before, key)
  }

  function NodeAt(n: PNode, path: seq<nat>): Option<PNode>
    decreases |path|
  {
    if path == [] then Some(n)
    else
      match n.load
      case Contents(entries) => if path[0] < |entries| then NodeAt(entries[path[0]], path[1..]) else None
      case _ => None
  }

  lemma PermWithField(n: PNode, key: string, k: string, text: string)
    requires IsPermKey(key)
    ensures PermAt(WithField(n, k, text).perms, key)
            == if k == key && States(text) then PermOf(text, PermNone) else PermAt(n.perms, key)
  {
  }

  /** A permission that the fields do not state is the one there was. */
  lemma {:induction false} PermsOfFields(fs: seq<Field>, n: PNode, key: string)
    requires IsPermKey(key)
    ensures PermAt(MeaningOfFields(fs, n).perms, key)
            == match LastStated(fs, key) case Some(p) => p case None => PermAt(n.perms, key)
    decreases |fs|
  {
    hide PermAt, WithField, PermOf, States, IsPermKey;
    if fs != [] {
      PermsOfFields(fs[1..], MeaningOfField(fs[0], n), key);
      if fs[0].TextField? { PermWithField(n, key, Word(fs[0].key), Word(fs[0].text)); }
    }
  }

  /** A directory's entries have as defaults what its fields before them made. */
  lemma {:induction false} EntriesOfFields(fs: seq<Field>, n: PNode)
    requires n.kind.DirKind? && FieldsWell(fs, n.kind)
    ensures MeaningOfFields(fs, n).load
            == match Listed(fs) case Some(l) => Contents(MeaningOfAll(l.0, MeaningOfFields(l.1, n).perms))
               case None => n.load
    decreases |fs|
  {
    hide IsTextKey, Clean, Space, PermOf;
    if fs != [] {
      var n1 := MeaningOfField(fs[0], n);
      assert n1.kind == n.kind && (fs[0].TextField? ==> n1.load == n.load);
      EntriesOfFields(fs[1..], n1);
      if Listed(fs[1..]).Some? {
        var l := Listed(fs[1..]).value;
        assert ([fs[0]] + l.1)[1..] == l.1;
      }
    }
  }

  lemma {:induction false} EntryMeaning(ws: seq<Written>, d: Perms, i: nat)
    requires i < |ws| && AllWell(ws)
    ensures MeaningOfAll(ws, d)[i] == Meaning(ws[i], d) && WellWritten(ws[i])
    decreases i
  {
    hide Meaning, WellWritten;
    if i > 0 { EntryMeaning(ws[1..], d, i - 1); }
  }

  lemma {:induction false} ListedIsWell(fs: seq<Field>, kind: Kind)
    requires FieldsWell(fs, kind) && Listed(fs).Some?
    ensures kind.DirKind? && AllWell(Listed(fs).value.0)
    decreases |fs|
  {
    hide AllWell, Clean, Space, IsTextKey, Allowed;
    if Listed(fs[1..]).Some? { ListedIsWell(fs[1..], kind); }
  }

  /** In every well-written text, however its fields are ordered, a node that the parser returns, at any
      depth, has the permission stated nearest to it, and the given default if there is none. */
  lemma {:induction false} NearestIsInherited(w: Written, d: Perms, path: seq<nat>, key: string)
    requires WellWritten(w) && Leads(w, path) && IsPermKey(key)
    ensures NodeAt(Meaning(w, d), path).Some?
    ensures PermAt(NodeAt(Meaning(w, d), path).value.perms, key)
            == match Nearest(w, path, key) case Some(p) => p case None => PermAt(d, key)
    decreases |path|
  {
    hide PermAt, FieldsWell, MeaningOfFields, MeaningOfAll, LastStated, Listed, Space;
    var n0 := PNode(w.kind, None, d, 0, Unset);
    if path == [] {
      PermsOfFields(w.fields, n0, key);
    } else {
      var (entries, before) := Listed(w.fields).value;
      ListedIsWell(w.fields, w.kind);
      EntriesOfFields(w.fields, n0);
      var d1 := MeaningOfFields(before, n0).perms;
      EntryMeaning(entries, d1, path[0]);
      NearestIsInherited(entries[path[0]], d1, path[1..], key);
      PermsOfFields(before, n0, key);
    }
  }

  /** One of the three words stands in this field, for the permission named key. */
  predicate SaysWord(f: Field, key: string) {
    f.TextField? && Word(f.key) == key && Word(f.text) in ["none", "owner", "all"]
  }

  lemma {:induction false} LastWord(fs: seq<Field>, key: string, i: nat)
    requires i < |fs| && SaysWord(fs[i], key) && forall j :: i < j < |fs| ==> !SaysWord(fs[j], key)
    ensures LastStated(fs, key) == Some(if Word(fs[i].text) == "owner" then PermOwner else PermAll)
    decreases |fs|
  {
    if i > 0 {
      LastWord(fs[1..], key, i - 1);
    } else {
      NoWord(fs[1..], key);
    }
  }

  lemma {:induction false} NoWord(fs: seq<Field>, key: string)
    requires forall j :: 0 <= j < |fs| ==> !SaysWord(fs[j], key)
    ensures LastStated(fs, key) == None
    decreases |fs|
  {
    if fs != [] {
      assert !SaysWord(fs[0], key);
      NoWord(fs[1..], key);
    }
  }

  /** What the words mean in a text that is parsed: the last one given for a permission counts; "owner" is
      the owner, and "all" and "none" are both all. */
  lemma WordsMean(w: Written, d: Perms, rest: string, i: nat, key: string)
    requires WellWritten(w) && i < |w.fields|
    requires SaysWord(w.fields[i], key) && forall j :: i < j < |w.fields| ==> !SaysWord(w.fields[j], key)
    ensures ParseNext(Show(w) + rest, d).Parsed?
    ensures var (p, n) := (if Word(w.fields[i].text) == "owner" then PermOwner else PermAll,
                           ParseNext(Show(w) + rest, d).node);
            && (key == "read" ==> n.perms.read == p) && (key == "write" ==> n.perms.write == p)
            && (key == "exec" ==> n.perms.exec == p)
  {
    hide ParseNext, Show, WellWritten, LastStated, MeaningOfFields;
    NodeReads(w, d, rest);
    LastWord(w.fields, key, i);
    if IsPermKey(key) { PermsOfFields(w.fields, PNode(w.kind, None, d, 0, Unset), key); }
  }

  /** No text takes a permission away: none is there only if it was inherited. */
  lemma {:induction false} NoneOnlyInherited(fs: seq<Field>, n: PNode, key: string)
    requires IsPermKey(key) && PermAt(MeaningOfFields(fs, n).perms, key) == PermNone
    ensures PermAt(n.perms, key) == PermNone
    decreases fs
  {
    hide WithField, Word, PermOf, PermAt, IsPermKey;
    if fs != [] {
      NoneOnlyInherited(fs[1..], MeaningOfField(fs[0], n), key);
      if fs[0].TextField? {
        PermWithField(n, key, Word(fs[0].key), Word(fs[0].text));
        NoneStays(Word(fs[0].text));
      }
    }
  }

  // ----- a tree written plainly -----

  function PermText(p: Perm): string {
    match p
    case PermNone => "none"
    case PermOwner => "owner"
    case PermAll => "all"
  }

  function Plain(key: string, text: string, end: char): Field {
    TextField(key, text, end)
  }

  function PermFields(key: string, p: Perm, was: Perm): seq<Field> {
    if p == was then [] else [Plain(key, PermText(p), ',')]
  }

  /** A node without any space, its contents in front of its permissions. */
  function Plainly(t: PNode, d: Perms): Written
    requires Printable(t, d)
    decreases t, 1
  {
    Written("", t.kind, "", "",
            [Plain("name", t.name.value, ','), LoadField(t, d)]
            + PermFields("read", t.perms.read, d.read) + PermFields("write", t.perms.write, d.write)
            + PermFields("exec", t.perms.exec, d.exec)
            + [Plain("owner", Text(t.owner, 10), ']')])
  }

  function LoadField(t: PNode, d: Perms): Field
    requires LoadPrintable(t, d)
    decreases t, 0
  {
    match t.load
    case Actual(path) => Plain("actual", path, ',')
    case Dest(path) => Plain("dest", path, ',')
    case Contents(entries) => ListField("contents", "", AllPlainly(entries, d), "", "", ',')
  }

  function AllPlainly(ts: seq<PNode>, d: Perms): seq<Written>
    requires AllPrintable(ts, d)
    decreases ts, 0
  {
    if ts == [] then [] else [Plainly(ts[0], d)] + AllPlainly(ts[1..], d)
  }

  /** Permissions that fields can make of the defaults d. */
  predicate Reachable(p: Perms, d: Perms) {
    && (p.read == PermNone ==> d.read == PermNone) && (p.write == PermNone ==> d.write == PermNone)
    && (p.exec == PermNone ==> d.exec == PermNone)
  }

  /** A tree that can be written: named, its load of its kind, and a permission none only where the defaults
      have it none. */
  predicate Printable(t: PNode, d: Perms)
    decreases t, 1
  {
    && t.name.Some? && Clean(t.name.value)
    && Reachable(t.perms, d) && OwnerFits(t.owner)
    && LoadPrintable(t, d)
  }

  predicate OwnerFits(v: int) {
    -0x8000_0000 < v < 0x8000_0000
  }

  predicate LoadPrintable(t: PNode, d: Perms)
    decreases t, 0
  {
    match t.load
    case Unset => false
    case Actual(path) => t.kind.FileKind? && Clean(path)
    case Dest(path) => t.kind.IndirectKind? && Clean(path)
    case Contents(entries) => t.kind.DirKind? && AllPrintable(entries, d)
  }

  predicate AllPrintable(ts: seq<PNode>, d: Perms)
    decreases ts, 0
  {
    ts != [] ==> Printable(ts[0], d) && AllPrintable(ts[1..], d)
  }

  function Pow10(k: nat): (p: nat)
    ensures p > 0
  {
    if k == 0 then 1 else 10 * Pow10(k - 1)
  }

  lemma {:induction false} DigitsShort(v: nat, k: nat)
    requires k > 0 && v < Pow10(k)
    ensures |Digits(v, 10)| <= k
  {
    if v >= 10 {
      QuotTen(v);
      DigitsShort(Quot(v, 10), k - 1);
    }
  }

  lemma QuotTen(v: nat)
    ensures Quot(v, 10) == v / 10
  {
  }

  lemma OwnerText(v: int)
    requires OwnerFits(v)
    ensures Clean(Text(v, 10)) && HostNumber(Text(v, 10)) == v
  {
    hide Digits, SkipSpaces, DigitRun, Quot, Pow10, IsNumeral, Value, DigitValue, Push;
    var a: nat := if v < 0 then -v else v;
    var d := Digits(a, 10);
    TenDigits();
    DigitsShort(a, 10);
    DigitsDenote(a, 10);
    DecimalChars(d);
    AtolOfItoa(v);
    var t := Text(v, 10);
    assert forall i :: 0 <= i < |t| ==> IsDigit(t[i]) || t[i] == '-';
    NoSpaceAhead(t);
  }

  lemma TenDigits()
    ensures Pow10(10) == 10_000_000_000
  {
    assert Pow10(5) == 100_000;
  }

  lemma NoSpaceAhead(t: string)
    requires t != "" && !IsSpace(t[0])
    ensures SkipSpaces(t) == t
  {
  }

  lemma {:induction false} FieldsConcat(fs: seq<Field>, gs: seq<Field>, n: PNode)
    ensures MeaningOfFields(fs + gs, n) == MeaningOfFields(gs, MeaningOfFields(fs, n))
    ensures FieldsWell(fs, n.kind) && FieldsWell(gs, n.kind) ==> FieldsWell(fs + gs, n.kind)
    decreases fs
  {
    hide FieldWell, MeaningOfField;
    if fs == [] {
      assert fs + gs == gs;
    } else {
      KindStays(fs[0], n);
      FieldsConcat(fs[1..], gs, MeaningOfField(fs[0], n));
      assert (fs + gs)[1..] == fs[1..] + gs;
    }
  }

  lemma OneField(f: Field, n: PNode)
    ensures MeaningOfFields([f], n) == MeaningOfField(f, n) && (FieldWell(f, n.kind) ==> FieldsWell([f], n.kind))
  {
    hide FieldWell, MeaningOfField;
    assert [f][1..] == [];
  }

  lemma PermFieldsMean(key: string, p: Perm, n: PNode)
    requires IsPermKey(key) && (p == PermAt(n.perms, key) || p != PermNone)
    ensures FieldsWell(PermFields(key, p, PermAt(n.perms, key)), n.kind)
    ensures MeaningOfFields(PermFields(key, p, PermAt(n.perms, key)), n)
            == n.(perms := if key == "read" then n.perms.(read := p) else if key == "write" then n.perms.(write := p)
                           else n.perms.(exec := p))
  {
    hide FieldsWell, MeaningOfFields;
    if p != PermAt(n.perms, key) {
      PermFieldMeans(key, p, n);
      OneField(Plain(key, PermText(p), ','), n);
    } else {
      NoFields(n);
    }
  }

  lemma PermFieldMeans(key: string, p: Perm, n: PNode)
    requires IsPermKey(key) && p != PermNone
    ensures FieldWell(Plain(key, PermText(p), ','), n.kind)
    ensures MeaningOfField(Plain(key, PermText(p), ','), n)
            == n.(perms := if key == "read" then n.perms.(read := p) else if key == "write" then n.perms.(write := p)
                           else n.perms.(exec := p))
  {
    hide Clean, FieldWell, MeaningOfField, Plain;
    PermTextClean(p);
    PlainField(key, PermText(p), ',', n);
  }

  lemma PermTextClean(p: Perm)
    requires p != PermNone
    ensures Clean(PermText(p)) && forall was :: PermOf(PermText(p), was) == p
  {
  }

  lemma NoFields(n: PNode)
    ensures MeaningOfFields([], n) == n && FieldsWell([], n.kind)
  {
  }

  /** A printable tree, written plainly, is well written and means itself. */
  lemma {:induction false} PlainlyMeans(t: PNode, d: Perms)
    requires Printable(t, d)
    ensures WellWritten(Plainly(t, d)) && Meaning(Plainly(t, d), d) == t
    decreases t, 1
  {
    hide FieldsWell, MeaningOfFields, LoadField, LoadPrintable, PermFields, Text, Clean, MeaningOfField, FieldWell;
    var n0 := PNode(t.kind, None, d, 0, Unset);
    var nm, ld := Plain("name", t.name.value, ','), LoadField(t, d);
    var r, w, x := PermFields("read", t.perms.read, d.read), PermFields("write", t.perms.write, d.write),
                   PermFields("exec", t.perms.exec, d.exec);
    var ow := Plain("owner", Text(t.owner, 10), ']');
    var n1 := n0.(name := t.name);
    var n2 := n1.(load := t.load);
    var n3 := n2.(perms := n2.perms.(read := t.perms.read));
    var n4 := n3.(perms := n3.perms.(write := t.perms.write));
    var n5 := n4.(perms := n4.perms.(exec := t.perms.exec));
    PlainField("name", t.name.value, ',', n0);
    OneField(nm, n0);
    LoadMeans(t, n1, d);
    OneField(ld, n1);
    FieldsConcat([nm], [ld], n0);
    assert [nm] + [ld] == [nm, ld];
    PermFieldsMean("read", t.perms.read, n2);
    PermFieldsMean("write", t.perms.write, n3);
    PermFieldsMean("exec", t.perms.exec, n4);
    OwnerText(t.owner);
    PlainField("owner", Text(t.owner, 10), ']', n5);
    OneField(ow, n5);
    FieldsConcat([nm, ld], r, n0);
    FieldsConcat([nm, ld] + r, w, n0);
    FieldsConcat([nm, ld] + r + w, x, n0);
    FieldsConcat([nm, ld] + r + w + x, [ow], n0);
    PlainlyEnds(t, d);
    assert n5.(owner := t.owner) == t;
  }

  lemma PlainlyEnds(t: PNode, d: Perms)
    requires Printable(t, d)
    ensures Closed(Plainly(t, d).fields)
  {
    hide Printable, Text, AllPlainly;
  }

  lemma PlainField(key: string, text: string, end: char, n: PNode)
    requires IsTextKey(key) && Allowed(n.kind, key) && Clean(text) && IsDelim(end)
    ensures FieldWell(Plain(key, text, end), n.kind)
    ensures MeaningOfField(Plain(key, text, end), n) == WithField(n, key, text)
  {
    hide Word, IsTextKey, Allowed, WithField, NoDelim;
    KeyIsClean(key);
    CleanIsWord(key);
    CleanIsWord(text);
  }

  lemma {:induction false} LoadMeans(t: PNode, n: PNode, d: Perms)
    requires LoadPrintable(t, d) && n.kind == t.kind && n.perms == d
    ensures FieldWell(LoadField(t, d), t.kind) && MeaningOfField(LoadField(t, d), n) == n.(load := t.load)
    decreases t, 0
  {
    hide Clean, AllPlainly, AllPrintable, AllWell, MeaningOfAll, FieldWell, MeaningOfField, Plain, Word;
    match t.load {
      case Unset => assert false;
      case Actual(path) => PlainField("actual", path, ',', n);
      case Dest(path) => PlainField("dest", path, ',', n);
      case Contents(entries) => {
        AllPlainlyMean(entries, d);
        ListFieldMeans(AllPlainly(entries, d), n);
      }
    }
  }

  lemma ListFieldMeans(ws: seq<Written>, n: PNode)
    requires AllWell(ws) && n.kind.DirKind?
    ensures var f := ListField("contents", "", ws, "", "", ',');
            FieldWell(f, n.kind) && MeaningOfField(f, n) == n.(load := Contents(MeaningOfAll(ws, n.perms)))
  {
    hide Word, AllWell, MeaningOfAll;
    KeyIsClean("contents");
    CleanIsWord("contents");
  }

  lemma {:induction false} AllPlainlyMean(ts: seq<PNode>, d: Perms)
    requires AllPrintable(ts, d)
    ensures AllWell(AllPlainly(ts, d)) && MeaningOfAll(AllPlainly(ts, d), d) == ts
    decreases ts, 0
  {
    hide Printable, Plainly, WellWritten, Meaning;
    if ts != [] {
      PlainlyMeans(ts[0], d);
      AllPlainlyMean(ts[1..], d);
    }
  }

  // ----- which trees a text can mean -----

  /** Every node has a name, a load and an owner of 32 bits. */
  predicate Filled(t: PNode)
    decreases t, 1
  {
    t.name.Some? && OwnerFits(t.owner) && t.load != Unset && (t.load.Contents? ==> AllFilled(t.load.entries))
  }

  predicate AllFilled(ts: seq<PNode>)
    decreases ts, 0
  {
    ts != [] ==> Filled(ts[0]) && AllFilled(ts[1..])
  }

  /** What holds of a node as far as its fields are known. */
  predicate SoFar(n: PNode, d: Perms) {
    && (n.name.Some? ==> Clean(n.name.value)) && Reachable(n.perms, d)
    && (n.load != Unset && (n.load.Contents? ==> AllFilled(n.load.entries)) ==> LoadPrintable(n, d))
  }

  lemma {:induction false} PrintableUnder(t: PNode, d: Perms, d': Perms)
    requires Printable(t, d) && Reachable(d, d')
    ensures Printable(t, d')
    decreases t, 1
  {
    hide Clean, AllPrintable;
    if t.load.Contents? { AllPrintableUnder(t.load.entries, d, d'); }
  }

  lemma {:induction false} AllPrintableUnder(ts: seq<PNode>, d: Perms, d': Perms)
    requires AllPrintable(ts, d) && Reachable(d, d')
    ensures AllPrintable(ts, d')
    decreases ts, 0
  {
    hide Printable, Reachable;
    if ts != [] {
      PrintableUnder(ts[0], d, d');
      AllPrintableUnder(ts[1..], d, d');
    }
  }

  lemma {:induction false} FieldsSoFar(fs: seq<Field>, n: PNode, d: Perms)
    requires FieldsWell(fs, n.kind) && SoFar(n, d)
    ensures SoFar(MeaningOfFields(fs, n), d)
    decreases fs, 1
  {
    hide Clean, SoFar, FieldWell, MeaningOfField;
    if fs != [] {
      KindStays(fs[0], n);
      FieldSoFar(fs[0], n, d);
      FieldsSoFar(fs[1..], MeaningOfField(fs[0], n), d);
    }
  }

  lemma {:induction false} FieldSoFar(f: Field, n: PNode, d: Perms)
    requires FieldWell(f, n.kind) && SoFar(n, d)
    ensures SoFar(MeaningOfField(f, n), d)
    decreases f, 0
  {
    hide Clean, AllWell, AllPrintable, AllFilled, MeaningOfAll, WithField, Word, NoDelim, IsTextKey, Allowed;
    if f.ListField? {
      EntriesPrintable(f.entries, n.perms);
      var ns := MeaningOfAll(f.entries, n.perms);
      if AllFilled(ns) { AllPrintableUnder(ns, n.perms, d); }
    } else {
      WordIsClean(f.text);
      TextSoFar(Word(f.key), Word(f.text), n, d);
    }
  }

  lemma TextSoFar(key: string, text: string, n: PNode, d: Perms)
    requires IsTextKey(key) && Allowed(n.kind, key) && Clean(text) && SoFar(n, d)
    ensures SoFar(WithField(n, key, text), d)
  {
    hide Clean, AllPrintable, AllFilled, HostNumber, PermOf, IsTextKey;
    assert forall was :: PermOf(text, was) == PermNone ==> was == PermNone by { NoneStays(text); }
  }

  lemma NoneStays(text: string)
    ensures forall was :: PermOf(text, was) == PermNone ==> was == PermNone
  {
  }

  lemma {:induction false} EntriesPrintable(ws: seq<Written>, d: Perms)
    requires AllWell(ws)
    ensures AllFilled(MeaningOfAll(ws, d)) ==> AllPrintable(MeaningOfAll(ws, d), d)
    decreases ws, 0
  {
    hide WellWritten, Filled, Printable, Meaning;
    if ws != [] {
      MeaningIsPrintable(ws[0], d);
      EntriesPrintable(ws[1..], d);
    }
  }

  /** Whatever a well-written text says can be written plainly. */
  lemma {:induction false} MeaningIsPrintable(w: Written, d: Perms)
    requires WellWritten(w)
    ensures Filled(Meaning(w, d)) ==> Printable(Meaning(w, d), d)
    decreases w, 1
  {
    hide Clean, MeaningOfFields, FieldsWell, OwnerFits;
    FieldsSoFar(w.fields, PNode(w.kind, None, d, 0, Unset), d);
  }

  /** Exactly the trees whose permissions are none only where the defaults are can be had from a text. */
  lemma SaidIffPrintable(t: PNode, d: Perms)
    requires Filled(t)
    ensures (exists w :: WellWritten(w) && Meaning(w, d) == t) <==> Printable(t, d)
  {
    hide WellWritten, Meaning, Printable, Filled;
    forall w | WellWritten(w) && Meaning(w, d) == t
      ensures Printable(t, d)
    {
      MeaningIsPrintable(w, d);
    }
    if Printable(t, d) { PlainlyMeans(t, d); }
  }

  /** Printing a tree and parsing the text gives the tree back, whatever follows. */
  lemma TreeRoundTrip(t: PNode, d: Perms, rest: string)
    requires Printable(t, d)
    ensures ParseNext(Show(Plainly(t, d)) + rest, d) == Parsed(t, rest)
  {
    hide Plainly, Printable, WellWritten, Meaning, Show, ParseNext;
    PlainlyMeans(t, d);
    NodeReads(Plainly(t, d), d, rest);
  }
}
