/** The tokenizer of the configuration language, src/config-parser/serv-conf/ServConf.cpp. */
module ConfLexer {
  import opened Bytes

  predicate IsSpace(c: char) {
    c == ' ' || c == '\n' || c == '\t'
  }

  predicate IsMarkChar(c: char) {
    c == '{' || c == '}' || c == ';'
  }

  predicate IsKey(c: char) {
    IsSpace(c) || IsMarkChar(c) || c == '#'
  }

  // ---- one character at a time

  datatype Lexer = Lexer(pending: Data, comment: bool)

  const FRESH := Lexer([], false)

  function Flush(pending: Data): seq<Data> {
    if pending == [] then [] else [pending]
  }

  function Emit(l: Lexer, c: char): seq<Data> {
    if l.comment then if c == '\n' then Flush(l.pending) else []
    else if !IsKey(c) then []
    else if IsMarkChar(c) then Flush(l.pending) + [[c]]
    else Flush(l.pending)
  }

  function Next(l: Lexer, c: char): Lexer {
    if l.comment then if c == '\n' then FRESH else l.(pending := l.pending + [c])
    else if !IsKey(c) then l.(pending := l.pending + [c])
    else if c == '#' then Lexer([c], true)
    else FRESH
  }

  function Tokens(l: Lexer, s: Data): seq<Data>
    decreases |s|
  {
    if s == [] then Flush(l.pending) else Emit(l, s[0]) + Tokens(Next(l, s[0]), s[1..])
  }

  // A pending word ends where the text ends or a key character follows.
  predicate AtBoundary(l: Lexer, s: Data) {
    !l.comment && (l.pending == [] || s == [] || IsKey(s[0]))
  }

  lemma PendingEnds(l: Lexer, s: Data)
    requires AtBoundary(l, s)
    ensures Tokens(l, s) == Flush(l.pending) + Tokens(FRESH, s)
  {
    if s != [] && l.pending != [] {
      assert Emit(l, s[0]) == Flush(l.pending) + Emit(FRESH, s[0]);
    }
  }

  // ---- the tokenizer

  // The tokens so far, and those still to come from position i.
  predicate Left(all: seq<Data>, tokens: seq<Data>, l: Lexer, s: Data, i: nat) {
    i <= |s| && tokens + Tokens(l, s[i..]) == all
  }

  lemma TakeChar(all: seq<Data>, tokens: seq<Data>, l: Lexer, s: Data, i: nat)
    requires i < |s| && Left(all, tokens, l, s, i)
    ensures Left(all, tokens + Emit(l, s[i]), Next(l, s[i]), s, i + 1)
  {
    assert s[i..][0] == s[i] && s[i..][1..] == s[i + 1..];
    assert tokens + (Emit(l, s[i]) + Tokens(Next(l, s[i]), s[i + 1..])) == all;
  }

  lemma TakeQuietChar(all: seq<Data>, tokens: seq<Data>, l: Lexer, s: Data, i: nat)
    requires i < |s| && Left(all, tokens, l, s, i) && Emit(l, s[i]) == []
    ensures Left(all, tokens, Next(l, s[i]), s, i + 1)
  {
    TakeChar(all, tokens, l, s, i);
    assert tokens + [] == tokens;
  }

  lemma TakeMark(all: seq<Data>, tokens: seq<Data>, str: Data, s: Data, i: nat)
    requires i < |s| && Left(all, tokens, Lexer(str, false), s, i) && IsMarkChar(s[i])
    ensures Left(all, tokens + Flush(str) + [[s[i]]], FRESH, s, i + 1)
  {
    TakeChar(all, tokens, Lexer(str, false), s, i);
    assert tokens + (Flush(str) + [[s[i]]]) == tokens + Flush(str) + [[s[i]]];
  }

  lemma TakePending(all: seq<Data>, tokens: seq<Data>, l: Lexer, s: Data, i: nat)
    requires Left(all, tokens, l, s, i) && AtBoundary(l, s[i..])
    ensures Left(all, tokens + Flush(l.pending), FRESH, s, i)
  {
    hide Tokens;
    PendingEnds(l, s[i..]);
    assert tokens + (Flush(l.pending) + Tokens(FRESH, s[i..])) == all;
  }

  lemma TakeEnd(all: seq<Data>, tokens: seq<Data>, l: Lexer, s: Data)
    requires Left(all, tokens, l, s, |s|)
    ensures tokens + Flush(l.pending) == all
  {
  }

  method Tokenize(s: Data) returns (tokens: seq<Data>)
    ensures tokens == Tokens(FRESH, s)
  {
    hide Tokens, Left;
    ghost var all := Tokens(FRESH, s);
    var str: Data := [];
    tokens := [];
    var i := 0;
    AtStart(s);
    while i < |s|
      invariant 0 <= i <= |s| + 1
      invariant if i <= |s| then Left(all, tokens, Lexer(str, false), s, i) else tokens == all && str == []
      decreases |s| + 1 - i
    {
      if !IsKey(s[i]) {
        TakeQuietChar(all, tokens, Lexer(str, false), s, i);
        str := str + [s[i]];
      } else if s[i] == ' ' || s[i] == '\n' || s[i] == '\t' {
        TakeChar(all, tokens, Lexer(str, false), s, i);
        tokens, str := tokens + Flush(str), [];
      } else if s[i] == '#' {
        TakePending(all, tokens, Lexer(str, false), s, i);
        tokens, str := tokens + Flush(str), [];
        i, str, tokens := TakeComment(s, i, tokens, all);
      } else {
        TakeMark(all, tokens, str, s, i);
        tokens, str := tokens + Flush(str), [];
        tokens := tokens + [[s[i]]];
      }
      i := i + 1;
    }
    if i == |s| {
      TakeEnd(all, tokens, Lexer(str, false), s);
    }
    tokens := tokens + Flush(str);
  }

  lemma AtStart(s: Data)
    ensures Left(Tokens(FRESH, s), [], FRESH, s, 0)
  {
    assert s[0..] == s;
  }

  // From '#' up to the newline or the end.
  method TakeComment(s: Data, start: nat, before: seq<Data>, ghost all: seq<Data>)
    returns (i: nat, str: Data, tokens: seq<Data>)
    requires start < |s| && s[start] == '#' && Left(all, before, FRESH, s, start)
    ensures start < i <= |s| && str == []
    ensures if i < |s| then Left(all, tokens, FRESH, s, i + 1) else tokens == all
  {
    hide Tokens, Left;
    i, str, tokens := start, [], before;
    while i < |s| && s[i] != '\n'
      invariant start <= i <= |s| && (str == [] <==> i == start)
      invariant Left(all, tokens, Lexer(str, i > start), s, i)
    {
      TakeQuietChar(all, tokens, Lexer(str, i > start), s, i);
      assert [] + [s[i]] == [s[i]];
      str := str + [s[i]];
      i := i + 1;
    }
    if i < |s| {
      TakeChar(all, tokens, Lexer(str, true), s, i);
    } else {
      TakeEnd(all, tokens, Lexer(str, true), s);
    }
    tokens, str := tokens + Flush(str), [];
  }

  // ---- what tokens look like

  predicate IsWord(t: Data) {
    t != [] && forall i :: 0 <= i < |t| ==> !IsKey(t[i])
  }

  predicate IsComment(t: Data) {
    t != [] && t[0] == '#'
  }

  predicate IsMark(t: Data) {
    |t| == 1 && IsMarkChar(t[0])
  }

  predicate IsToken(t: Data) {
    IsWord(t) || IsMark(t) || (IsComment(t) && '\n' !in t)
  }

  predicate PendingFits(l: Lexer) {
    l.pending == [] || if l.comment then IsComment(l.pending) && '\n' !in l.pending else IsWord(l.pending)
  }

  lemma {:induction false} TokensAreTokens(l: Lexer, s: Data)
    requires PendingFits(l) && (l.comment ==> l.pending != [])
    ensures forall i :: 0 <= i < |Tokens(l, s)| ==> IsToken(Tokens(l, s)[i])
    decreases |s|
  {
    if s != [] {
      TokensAreTokens(Next(l, s[0]), s[1..]);
    }
  }

  // ---- nothing but separators is lost

  function Joined(ts: seq<Data>): Data {
    if ts == [] then [] else ts[0] + Joined(ts[1..])
  }

  function KeptChar(c: char, comment: bool): Data {
    if (if comment then c == '\n' else IsSpace(c)) then [] else [c]
  }

  // The text without blanks outside comments and without the newline that ends a comment.
  function Kept(s: Data, comment: bool): Data
    decreases |s|
  {
    if s == [] then []
    else KeptChar(s[0], comment) + Kept(s[1..], if comment then s[0] != '\n' else s[0] == '#')
  }

  lemma {:induction false} JoinedAppend(a: seq<Data>, b: seq<Data>)
    ensures Joined(a + b) == Joined(a) + Joined(b)
    decreases |a|
  {
    if a == [] {
      assert a + b == b;
    } else {
      assert (a + b)[1..] == a[1..] + b;
      JoinedAppend(a[1..], b);
    }
  }

  lemma JoinedSmall(pending: Data, c: char)
    ensures Joined(Flush(pending)) == pending && Joined(Flush(pending) + [[c]]) == pending + [c]
  {
    assert Joined([[c]]) == [c] + Joined([]);
    JoinedAppend(Flush(pending), [[c]]);
  }

  // A character is emitted, pending, or a separator.
  lemma KeptStep(l: Lexer, c: char)
    ensures Joined(Emit(l, c)) + Next(l, c).pending == l.pending + KeptChar(c, l.comment)
    ensures Next(l, c).comment == if l.comment then c != '\n' else c == '#'
  {
    hide Joined;
    JoinedSmall(l.pending, c);
    assert Joined([]) == [] by {
      JoinedEmpty();
    }
  }

  lemma JoinedEmpty()
    ensures Joined([]) == []
  {
  }

  lemma Regroup(a: Data, b: Data, c: Data, d: Data, e: Data)
    requires a + b == c + d
    ensures a + (b + e) == c + (d + e)
  {
    assert a + (b + e) == (a + b) + e && c + (d + e) == (c + d) + e;
  }

  lemma {:induction false} JoinedIsKept(l: Lexer, s: Data)
    ensures Joined(Tokens(l, s)) == l.pending + Kept(s, l.comment)
    decreases |s|
  {
    hide Joined, Emit, Next, KeptChar;
    if s == [] {
      JoinedSmall(l.pending, ' ');
    } else {
      var c, l' := s[0], Next(l, s[0]);
      JoinedAppend(Emit(l, c), Tokens(l', s[1..]));
      JoinedIsKept(l', s[1..]);
      KeptStep(l, c);
      Regroup(Joined(Emit(l, c)), l'.pending, l.pending, KeptChar(c, l.comment), Kept(s[1..], l'.comment));
    }
  }

  lemma TokensJoined(s: Data)
    ensures Joined(Tokens(FRESH, s)) == Kept(s, false)
  {
    JoinedIsKept(FRESH, s);
  }

  // ---- layout

  function Significant(ts: seq<Data>): seq<Data> {
    if ts == [] then [] else (if IsComment(ts[0]) then [] else [ts[0]]) + Significant(ts[1..])
  }

  lemma {:induction false} SignificantAppend(a: seq<Data>, b: seq<Data>)
    ensures Significant(a + b) == Significant(a) + Significant(b)
    decreases |a|
  {
    if a == [] {
      assert a + b == b;
    } else {
      assert (a + b)[1..] == a[1..] + b;
      SignificantAppend(a[1..], b);
    }
  }

  // Blanks and comments that end in a newline.
  predicate LayoutFrom(gap: Data, comment: bool)
    decreases |gap|
  {
    if gap == [] then !comment
    else if comment then LayoutFrom(gap[1..], gap[0] != '\n')
    else (IsSpace(gap[0]) || gap[0] == '#') && LayoutFrom(gap[1..], gap[0] == '#')
  }

  predicate IsLayout(gap: Data) {
    LayoutFrom(gap, false)
  }

  // Layout in front of a text adds comments only.
  lemma {:induction false} LayoutAdds(l: Lexer, gap: Data, s: Data)
    requires LayoutFrom(gap, l.comment) && (if l.comment then IsComment(l.pending) else l.pending == [])
    ensures Significant(Tokens(l, gap + s)) == Significant(Tokens(FRESH, s))
    decreases |gap|
  {
    if gap == [] {
      assert gap + s == s;
    } else {
      assert (gap + s)[1..] == gap[1..] + s;
      LayoutAdds(Next(l, gap[0]), gap[1..], s);
      SignificantAppend(Emit(l, gap[0]), Tokens(Next(l, gap[0]), gap[1..] + s));
    }
  }

  function After(l: Lexer, s: Data): Lexer
    decreases |s|
  {
    if s == [] then l else After(Next(l, s[0]), s[1..])
  }

  lemma {:induction false} InsertedAfter(l: Lexer, a: Data, gap: Data, b: Data)
    requires IsLayout(gap) && AtBoundary(After(l, a), b)
    ensures Significant(Tokens(l, a + gap + b)) == Significant(Tokens(l, a + b))
    decreases |a|
  {
    if a != [] {
      assert (a + gap + b)[1..] == a[1..] + gap + b && (a + b)[1..] == a[1..] + b;
      InsertedAfter(Next(l, a[0]), a[1..], gap, b);
      SignificantAppend(Emit(l, a[0]), Tokens(Next(l, a[0]), a[1..] + gap + b));
      SignificantAppend(Emit(l, a[0]), Tokens(Next(l, a[0]), a[1..] + b));
    } else {
      assert a + gap + b == gap + b && a + b == b;
      PendingEnds(l, b);
      PendingEnds(l, gap + b);
      LayoutAdds(FRESH, gap, b);
      SignificantAppend(Flush(l.pending), Tokens(FRESH, gap + b));
      SignificantAppend(Flush(l.pending), Tokens(FRESH, b));
    }
  }

  // Blanks and comments put between two tokens of any text change nothing that the parser looks at.
  lemma LayoutInsensitive(a: Data, gap: Data, b: Data)
    requires IsLayout(gap) && AtBoundary(After(FRESH, a), b)
    ensures Significant(Tokens(FRESH, a + gap + b)) == Significant(Tokens(FRESH, a + b))
  {
    InsertedAfter(FRESH, a, gap, b);
  }

  // ---- writing tokens

  // Some layout before every token and after the last.
  function Render(ts: seq<Data>, gaps: seq<Data>): Data
    requires |gaps| == |ts| + 1
    decreases |ts|
  {
    if ts == [] then gaps[0] else gaps[0] + (ts[0] + Render(ts[1..], gaps[1..]))
  }

  // Two words need something between them.
  predicate Separates(ts: seq<Data>, gaps: seq<Data>) {
    && |gaps| == |ts| + 1
    && (forall i :: 0 <= i < |gaps| ==> IsLayout(gaps[i]))
    && (forall i :: 0 < i < |ts| && IsWord(ts[i - 1]) && IsWord(ts[i]) ==> gaps[i] != [])
  }

  lemma {:induction false} WordIsRead(l: Lexer, w: Data, s: Data)
    requires !l.comment && (forall i :: 0 <= i < |w| ==> !IsKey(w[i]))
    ensures Tokens(l, w + s) == Tokens(Lexer(l.pending + w, false), s)
    decreases |w|
  {
    if w == [] {
      assert w + s == s && l.pending + w == l.pending;
    } else {
      assert (w + s)[1..] == w[1..] + s && l.pending + [w[0]] + w[1..] == l.pending + w;
      WordIsRead(Next(l, w[0]), w[1..], s);
    }
  }

  lemma {:induction false} RenderIsRead(ts: seq<Data>, gaps: seq<Data>)
    requires Separates(ts, gaps) && (forall i :: 0 <= i < |ts| ==> IsWord(ts[i]) || IsMark(ts[i]))
    ensures Significant(Tokens(FRESH, Render(ts, gaps))) == ts
    decreases |ts|
  {
    if ts == [] {
      LayoutAdds(FRESH, gaps[0], []);
      assert gaps[0] + [] == gaps[0];
    } else {
      var rest := Render(ts[1..], gaps[1..]);
      RenderIsRead(ts[1..], gaps[1..]);
      LayoutAdds(FRESH, gaps[0], ts[0] + rest);
      TokenIsRead(ts, gaps, rest);
      SignificantAppend([ts[0]], Tokens(FRESH, rest));
    }
  }

  lemma TokenIsRead(ts: seq<Data>, gaps: seq<Data>, rest: Data)
    requires Separates(ts, gaps) && (forall i :: 0 <= i < |ts| ==> IsWord(ts[i]) || IsMark(ts[i]))
    requires ts != [] && rest == Render(ts[1..], gaps[1..])
    ensures Tokens(FRESH, ts[0] + rest) == [ts[0]] + Tokens(FRESH, rest)
  {
    if IsWord(ts[0]) {
      WordIsRead(FRESH, ts[0], rest);
      assert rest == [] || IsKey(rest[0]) by {
        assert IsLayout(gaps[1]);
        if |ts| > 1 {
          assert IsWord(ts[1]) || IsMark(ts[1]);
        }
      }
      assert [] + ts[0] == ts[0];
      PendingEnds(Lexer(ts[0], false), rest);
    } else {
      assert (ts[0] + rest)[1..] == rest && ts[0] == [ts[0][0]];
    }
  }

  // ---- what each character does

  const KEY_CHARS: Data := [' ', '\t', '\n', '{', '}', ';', '#']

  lemma KeyCharsAre(c: char)
    ensures IsKey(c) <==> c in KEY_CHARS
  {
    assert c in KEY_CHARS <==>
           c == ' ' || c == '\t' || c == '\n' || c == '{' || c == '}' || c == ';' || c == '#';
  }

  // Characters outside that list make one word.
  lemma WordExact(u: Data, s: Data)
    requires (forall c :: c in u ==> c !in KEY_CHARS) && (s != [] ==> s[0] in KEY_CHARS)
    ensures Tokens(FRESH, u + s) == (if u == [] then [] else [u]) + Tokens(FRESH, s)
  {
    forall i | 0 <= i < |u| ensures !IsKey(u[i]) {
      KeyCharsAre(u[i]);
    }
    WordIsRead(FRESH, u, s);
    assert [] + u == u;
    if s != [] {
      KeyCharsAre(s[0]);
    }
    PendingEnds(Lexer(u, false), s);
  }

  lemma {:induction false} CommentIsRead(pending: Data, text: Data, s: Data)
    requires pending != [] && '\n' !in text
    ensures Tokens(Lexer(pending, true), text + ("\n" + s)) == [pending + text] + Tokens(FRESH, s)
    ensures Tokens(Lexer(pending, true), text) == [pending + text]
    decreases |text|
  {
    if text == [] {
      assert text + ("\n" + s) == "\n" + s && ("\n" + s)[1..] == s && pending + text == pending;
    } else {
      assert (text + ("\n" + s))[1..] == text[1..] + ("\n" + s);
      assert pending + [text[0]] + text[1..] == pending + text;
      CommentIsRead(pending + [text[0]], text[1..], s);
    }
  }

  // A blank, a tab or a line feed separates, a brace or a semicolon is a token of its own.
  lemma KeyCharExact(c: char, s: Data)
    ensures c == ' ' || c == '\t' || c == '\n' ==> Tokens(FRESH, [c] + s) == Tokens(FRESH, s)
    ensures c == '{' || c == '}' || c == ';' ==> Tokens(FRESH, [c] + s) == [[c]] + Tokens(FRESH, s)
  {
    assert ([c] + s)[1..] == s;
  }

  // A hash sign begins a token that goes on to the end of the line.
  lemma CommentExact(text: Data, s: Data)
    requires '\n' !in text
    ensures Tokens(FRESH, "#" + text) == ["#" + text]
    ensures Tokens(FRESH, "#" + (text + ("\n" + s))) == ["#" + text] + Tokens(FRESH, s)
  {
    assert ("#" + text)[1..] == text;
    assert ("#" + (text + ("\n" + s)))[1..] == text + ("\n" + s);
    CommentIsRead("#", text, s);
  }
}
