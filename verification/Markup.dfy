/** The string transforms of XAUtils.js: newline <-> br tag, and HTML escaping. */
module Markup {

  /** A matcher gives the length of the match at the head of a text, 0 for none. */
  type Matcher = string -> nat

  /** `str.replace(/m/g, r)`: left to right, never rescanning what it wrote. */
  function Replace(m: Matcher, r: string, s: string): string
    decreases |s|
  {
    if s == "" then ""
    else if 0 < m(s) <= |s| then r + Replace(m, r, s[m(s)..])
    else [s[0]] + Replace(m, r, s[1..])
  }

  /** `/w/g` for a literal text w. */
  function Literal(w: string): Matcher {
    (s: string) => if w <= s then |w| else 0
  }

  // ---- nl2br / br2nl -------------------------------------------------------

  const BR := "<br/>"

  /** The characters of `\s`: white space and line ends (sections 7.2 and 7.3 of ECMA-262 5.1). */
  predicate JsSpace(c: char) {
    var n := c as int;
    9 <= n <= 13 || 0x2000 <= n <= 0x200A
    || n in [0x20, 0xA0, 0x1680, 0x2028, 0x2029, 0x202F, 0x205F, 0x3000, 0xFEFF]
  }

  /** `\s*\/\>` at the head of s. */
  function Slash(s: string): (n: nat)
    ensures n <= |s| && '<' !in s[..n]
  {
    if s != "" && JsSpace(s[0]) then
      var n := Slash(s[1..]);
      assert n > 0 ==> s[..n + 1] == [s[0]] + s[1..][..n];
      if n == 0 then 0 else n + 1
    else if "/>" <= s then
      assert s[..2] == "/>";
      2
    else 0
  }

  /** `/\<br(\s*\/|)\>/i` at the head of s. */
  function BrTag(s: string): nat {
    if |s| >= 4 && s[0] == '<' && s[1] in "bB" && s[2] in "rR" then
      if s[3] == '>' then 4 else if Slash(s[3..]) > 0 then 3 + Slash(s[3..]) else 0
    else 0
  }

  function BlankTabs(s: string): string {
    if s == "" then ""
    else [if s[0] == '\r' || s[0] == '\t' then ' ' else s[0]] + BlankTabs(s[1..])
  }

  function Nl2Br(s: string): string {
    BlankTabs(Replace(Literal("\n"), BR, s))
  }

  function Br2Nl(s: string): string {
    Replace(BrTag, "\n", s)
  }

  /** A match of m at the head of s that crosses no line end. */
  predicate LineMatch(m: Matcher, s: string) {
    0 < m(s) <= |s| && '\n' !in s[..m(s)]
  }

  /** A match of m lies within one line of s. */
  predicate MatchInALine(m: Matcher, s: string) {
    s != "" && (LineMatch(m, s) || MatchInALine(m, s[1..]))
  }

  predicate NoTabs(s: string) { '\r' !in s && '\t' !in s }

  /** What the proofs use of the tag pattern: a match has one `<`, in front, is decided by
      its own characters, and the inserted tag is one. */
  ghost predicate TagPattern(m: Matcher) {
    && (forall s :: OneAngle(m, s))
    && (forall s, t :: Local(m, s, t))
    && m(BR) == |BR|
  }

  ghost predicate OneAngle(m: Matcher, s: string) {
    m(s) > 0 ==> m(s) <= |s| && s[0] == '<' && '<' !in s[1..m(s)]
  }

  ghost predicate Local(m: Matcher, s: string, t: string) {
    0 < m(s) <= |s| && m(s) <= |t| && s[..m(s)] == t[..m(s)] ==> m(t) == m(s)
  }

  lemma {:induction false} SlashPrefix(s: string, t: string)
    requires 0 < Slash(s) <= |t| && s[..Slash(s)] == t[..Slash(s)]
    ensures Slash(t) == Slash(s)
  {
    var n := Slash(s);
    assert forall i | 0 <= i < n :: s[i] == s[..n][i] == t[..n][i] == t[i];
    if JsSpace(s[0]) {
      assert s[1..][..n - 1] == s[..n][1..] && t[1..][..n - 1] == t[..n][1..];
      SlashPrefix(s[1..], t[1..]);
    }
  }

  lemma BrTagOneAngle(s: string)
    ensures OneAngle(BrTag, s)
  {
    if BrTag(s) > 4 || (BrTag(s) > 0 && s[3] != '>') {
      assert s[1..BrTag(s)] == [s[1], s[2]] + s[3..][..Slash(s[3..])];
    }
  }

  lemma BrTagLocal(s: string, t: string)
    ensures Local(BrTag, s, t)
  {
    var n := BrTag(s);
    if 0 < n <= |t| && n <= |s| && s[..n] == t[..n] {
      assert forall i | 0 <= i < 4 :: s[i] == s[..n][i] == t[..n][i] == t[i];
      if s[3] != '>' {
        assert s[3..][..n - 3] == s[..n][3..] && t[3..][..n - 3] == t[..n][3..];
        SlashPrefix(s[3..], t[3..]);
      }
    }
  }

  /** A br tag: two letters, then the end, or white space and a slash before it. */
  ghost predicate IsBrTag(t: string) {
    |t| >= 4 && t[0] == '<' && (t[1] == 'b' || t[1] == 'B') && (t[2] == 'r' || t[2] == 'R')
    && if |t| == 4 then t[3] == '>'
       else t[|t| - 2] == '/' && t[|t| - 1] == '>' && forall i | 3 <= i < |t| - 2 :: JsSpace(t[i])
  }

  lemma {:induction false} SlashIff(s: string, n: nat)
    requires n <= |s|
    ensures 0 < n == Slash(s) <==>
      n >= 2 && s[n - 2] == '/' && s[n - 1] == '>' && forall i | 0 <= i < n - 2 :: JsSpace(s[i])
    decreases |s|
  {
    if s != "" && JsSpace(s[0]) {
      if n > 0 { SlashIff(s[1..], n - 1); }
      assert forall i | 0 <= i < n - 3 :: s[1..][i] == s[i + 1];
    } else if n >= 2 {
      assert "/>" <= s <==> |s| >= 2 && s[0] == '/' && s[1] == '>';
    }
  }

  /** The pattern matches at the head of a text exactly what is a br tag. */
  lemma BrTagIff(s: string, n: nat)
    requires n <= |s|
    ensures 0 < n == BrTag(s) <==> IsBrTag(s[..n])
  {
    if |s| >= 4 && n >= 4 {
      SlashIff(s[3..], n - 3);
      assert forall i | 0 <= i < n :: s[..n][i] == s[i];
      assert forall i | 0 <= i < n - 3 :: s[3..][i] == s[i + 3];
    }
  }

  lemma BrTagPattern()
    ensures TagPattern(BrTag)
  {
    forall s ensures OneAngle(BrTag, s) { BrTagOneAngle(s); }
    forall s, t ensures Local(BrTag, s, t) { BrTagLocal(s, t); }
    assert BR[3..] == "/>";
    assert Slash("/>") == 2;
  }

  function Lined(s: string): string { Replace(Literal("\n"), BR, s) }

  lemma LinedStep(s: string)
    requires s != ""
    ensures Lined(s) == (if s[0] == '\n' then BR else [s[0]]) + Lined(s[1..])
  {
    assert "\n" <= s <==> s[0] == '\n';
  }

  /** A stretch of the lined text without `<` is a stretch of one line: an inserted tag
      begins with `<`, so no match can be formed with neighbouring text. */
  lemma {:induction false} LinedPrefix(s: string, n: nat)
    requires n <= |Lined(s)| && '<' !in Lined(s)[..n]
    ensures n <= |s| && s[..n] == Lined(s)[..n] && '\n' !in s[..n]
  {
    if n > 0 && s != "" {
      LinedStep(s);
      assert Lined(s)[0] == Lined(s)[..n][0];
      var rest := Lined(s[1..]);
      assert Lined(s)[..n] == [s[0]] + rest[..n - 1];
      LinedPrefix(s[1..], n - 1);
      assert s[..n] == [s[0]] + s[1..][..n - 1];
    }
  }

  lemma {:induction false} LinedCopies(s: string, n: nat)
    requires n <= |s| && '\n' !in s[..n]
    ensures Lined(s) == s[..n] + Lined(s[n..])
  {
    if n == 0 {
      assert s[0..] == s;
    } else {
      LinedStep(s);
      assert s[0] == s[..n][0];
      assert s[..n] == [s[0]] + s[1..][..n - 1];
      LinedCopies(s[1..], n - 1);
      assert s[1..][n - 1..] == s[n..];
    }
  }

  lemma LinedMatch(m: Matcher, s: string)
    requires TagPattern(m) && s != "" && s[0] != '\n'
    ensures m(Lined(s)) > 0 <==> LineMatch(m, s)
    ensures m(Lined(s)) > 0 ==> m(Lined(s)) == m(s)
  {
    var d := Lined(s);
    assert OneAngle(m, d) && OneAngle(m, s) && Local(m, d, s) && Local(m, s, d);
    if m(d) > 0 {
      var n := m(d);
      LinedStep(s);
      assert d[1..n] == Lined(s[1..])[..n - 1];
      LinedPrefix(s[1..], n - 1);
      assert s[..n] == [s[0]] + s[1..][..n - 1] == d[..n];
    }
    if LineMatch(m, s) {
      LinedCopies(s, m(s));
    }
  }

  lemma TagAtHead(m: Matcher, rest: string)
    requires TagPattern(m)
    ensures Replace(m, "\n", BR + rest) == "\n" + Replace(m, "\n", rest)
  {
    assert Local(m, BR, BR + rest);
    assert BR[..|BR|] == BR == (BR + rest)[..|BR|];
    assert (BR + rest)[|BR|..] == rest;
  }

  lemma {:induction false} TagsUndoLined(m: Matcher, s: string)
    requires TagPattern(m) && !MatchInALine(m, s)
    ensures Replace(m, "\n", Lined(s)) == s
  {
    if s != "" {
      LinedStep(s);
      TagsUndoLined(m, s[1..]);
      var rest := Lined(s[1..]);
      if s[0] == '\n' {
        TagAtHead(m, rest);
      } else {
        LinedMatch(m, s);
        assert Lined(s)[1..] == rest;
      }
    }
  }

  function Newlines(s: string): nat {
    if s == "" then 0 else (if s[0] == '\n' then 1 else 0) + Newlines(s[1..])
  }

  lemma {:induction false} NewlinesConcat(s: string, t: string)
    ensures Newlines(s + t) == Newlines(s) + Newlines(t)
    ensures '\n' !in s ==> Newlines(s) == 0
  {
    if s == "" {
      assert s + t == t;
    } else {
      NewlinesConcat(s[1..], t);
      assert (s + t)[1..] == s[1..] + t;
    }
  }

  /** Every tag inside a line comes back as a line end that was not there before. */
  lemma {:induction false} TagsBecomeNewlines(m: Matcher, s: string)
    requires TagPattern(m)
    ensures Newlines(Replace(m, "\n", Lined(s))) >= Newlines(s)
    ensures MatchInALine(m, s) ==> Newlines(Replace(m, "\n", Lined(s))) > Newlines(s)
    decreases |s|
  {
    if s != "" {
      LinedStep(s);
      if s[0] == '\n' {
        var rest := Lined(s[1..]);
        TagAtHead(m, rest);
        TagsBecomeNewlines(m, s[1..]);
        NewlinesConcat("\n", Replace(m, "\n", rest));
        assert OneAngle(m, s);
      } else {
        LinedMatch(m, s);
        TagsSplit(m, s, if LineMatch(m, s) then m(s) else 1);
      }
    }
  }

  // One step of the line-end count: over a tag, or over one character of a line.
  lemma {:induction false} TagsSplit(m: Matcher, s: string, n: nat)
    requires TagPattern(m) && s != "" && s[0] != '\n'
    requires m(Lined(s)) > 0 <==> LineMatch(m, s)
    requires m(Lined(s)) > 0 ==> m(Lined(s)) == m(s)
    requires n == if LineMatch(m, s) then m(s) else 1
    ensures Newlines(Replace(m, "\n", Lined(s))) >= Newlines(s)
    ensures MatchInALine(m, s) ==> Newlines(Replace(m, "\n", Lined(s))) > Newlines(s)
    decreases |s|, 0
  {
    assert n == 1 && !LineMatch(m, s) ==> s[..n] == [s[0]];
    assert '\n' !in s[..n];
    LinedCopies(s, n);
    var d, rest := Lined(s), Lined(s[n..]);
    assert d[n..] == rest;
    TagsBecomeNewlines(m, s[n..]);
    NewlinesConcat(s[..n], s[n..]);
    assert s == s[..n] + s[n..];
    var head := if LineMatch(m, s) then "\n" else [s[0]];
    assert Replace(m, "\n", d) == head + Replace(m, "\n", rest);
    NewlinesConcat(head, Replace(m, "\n", rest));
  }

  lemma {:induction false} LinedKeeps(s: string, c: char)
    requires c != '\n' && c !in BR
    ensures c in Lined(s) <==> c in s
  {
    if s != "" {
      LinedStep(s);
      LinedKeeps(s[1..], c);
      assert s == [s[0]] + s[1..];
    }
  }

  lemma {:induction false} BlankTabsBlanks(s: string)
    ensures NoTabs(s) ==> BlankTabs(s) == s
    ensures NoTabs(BlankTabs(s))
  {
    if s != "" {
      BlankTabsBlanks(s[1..]);
      assert s == [s[0]] + s[1..];
    }
  }

  lemma {:induction false} ReplaceAddsNoTabs(m: Matcher, s: string)
    requires NoTabs(s)
    ensures NoTabs(Replace(m, "\n", s))
    decreases |s|
  {
    if s != "" {
      ReplaceAddsNoTabs(m, if 0 < m(s) <= |s| then s[m(s)..] else s[1..]);
    }
  }

  /** The newline round trip, with its exact condition: no carriage return or tab, and no
      br tag inside one line. A tag written across a line end survives. */
  lemma NewlineRoundTrip(s: string)
    ensures Br2Nl(Nl2Br(s)) == s <==> NoTabs(s) && !MatchInALine(BrTag, s)
  {
    BrTagPattern();
    BlankTabsBlanks(Lined(s));
    LinedKeeps(s, '\r');
    LinedKeeps(s, '\t');
    ReplaceAddsNoTabs(BrTag, Nl2Br(s));
    if NoTabs(s) {
      if MatchInALine(BrTag, s) {
        TagsBecomeNewlines(BrTag, s);
      } else {
        TagsUndoLined(BrTag, s);
      }
    }
  }

  /** nl2br works on each character by itself: a line end becomes a tag, a carriage return or a tab
      becomes a space, anything else stays. */
  lemma {:induction false} Nl2BrEach(s: string)
    requires s != ""
    ensures Nl2Br(s) == (if s[0] == '\n' then "<br/>" else if s[0] == '\r' || s[0] == '\t' then " " else [s[0]])
                        + Nl2Br(s[1..])
    ensures Nl2Br("") == ""
  {
    LinedStep(s);
    BlankConcat(if s[0] == '\n' then BR else [s[0]], Lined(s[1..]));
    assert NoTabs(BR);
    BlankTabsBlanks(BR);
    assert BlankTabs([s[0]]) == [if s[0] == '\r' || s[0] == '\t' then ' ' else s[0]] + BlankTabs([s[0]][1..]);
  }

  lemma {:induction false} BlankConcat(a: string, b: string)
    ensures BlankTabs(a + b) == BlankTabs(a) + BlankTabs(b)
  {
    if a == "" {
      assert a + b == b;
    } else {
      assert (a + b)[1..] == a[1..] + b;
      BlankConcat(a[1..], b);
    }
  }

  /** br2nl turns the tag at the head of a text into a line end, and otherwise copies a character. */
  lemma Br2NlEach(s: string, n: nat)
    requires n <= |s| && s != ""
    ensures IsBrTag(s[..n]) ==> Br2Nl(s) == "\n" + Br2Nl(s[n..])
    ensures (forall k | 0 <= k <= |s| :: !IsBrTag(s[..k])) ==> Br2Nl(s) == [s[0]] + Br2Nl(s[1..])
    ensures Br2Nl("") == ""
  {
    BrTagIff(s, n);
    if 0 < BrTag(s) <= |s| {
      BrTagIff(s, BrTag(s));
    }
  }

  // ---- escapeHtmlChar ------------------------------------------------------

  function Escape(c: char, e: string, s: string): string { Replace(Literal([c]), e, s) }

  function Unescape(e: string, c: char, s: string): string { Replace(Literal(e), [c], s) }

  /** The five replacements, in source order. */
  const ENTITIES: seq<(char, string)> := [
    ('&', "&amp;"), ('>', "&gt;"), ('<', "&lt;"), ('"', "&quot;"), ('\'', "&#039;")
  ]

  /** What the one-pass substitution makes of the five characters, and of any other. */
  lemma EntitiesAre(x: char)
    ensures Entity('&', 5) == "&amp;" && Entity('>', 5) == "&gt;" && Entity('<', 5) == "&lt;"
    ensures Entity('"', 5) == "&quot;" && Entity('\'', 5) == "&#039;"
    ensures x !in "&><\"'" ==> Entity(x, 5) == [x]
  {
    assert ENTITIES[0].0 == '&' && ENTITIES[1].0 == '>' && ENTITIES[2].0 == '<';
    assert ENTITIES[3].0 == '"' && ENTITIES[4].0 == '\'';
    assert Escaped('&', 5) && Escaped('>', 5) && Escaped('<', 5) && Escaped('"', 5) && Escaped('\'', 5);
    forall i | 0 <= i < 5 ensures ENTITIES[i].0 in "&><\"'" {
      var five := "&><\"'";
      assert five[0] == '&' && five[1] == '>' && five[2] == '<' && five[3] == '"' && five[4] == '\'';
    }
  }

  predicate Escaped(x: char, n: nat)
    requires n <= |ENTITIES|
  {
    exists i :: 0 <= i < n && ENTITIES[i].0 == x
  }

  /** What the first n entities make of one character, all at once. */
  function Entity(x: char, n: nat): string
    requires n <= |ENTITIES|
  {
    if !Escaped(x, n) then [x]
    else if x == '&' then "&amp;"
    else if x == '>' then "&gt;"
    else if x == '<' then "&lt;"
    else if x == '"' then "&quot;"
    else "&#039;"
  }

  /** One pass over s, each character on its own. */
  function Simultaneous(s: string, n: nat): string
    requires n <= |ENTITIES|
  {
    if s == "" then "" else Entity(s[0], n) + Simultaneous(s[1..], n)
  }

  function Decode(s: string, n: nat): string
    requires n <= |ENTITIES|
    decreases n, |s|
  {
    if n == 0 then s else Decode(Unescape(ENTITIES[n - 1].1, ENTITIES[n - 1].0, s), n - 1)
  }

  /** `escapeHtmlChar`: the five replacements one after another, rebinding `str`. The result
      is the one-pass substitution, and decoding in reverse order recovers the input. */
  method EscapeHtmlChar(input: string) returns (str: string)
    ensures str == Simultaneous(input, |ENTITIES|)
    ensures Decode(str, |ENTITIES|) == input
  {
    if input == "" {
      return "";
    }
    hide Simultaneous, Escape, Decode, Entity, Escaped;
    EscapeNone(input);
    EscapeOneMore(input, 0);
    str := Escape('&', "&amp;", input);
    EscapeOneMore(input, 1);
    str := Escape('>', "&gt;", str);
    EscapeOneMore(input, 2);
    str := Escape('<', "&lt;", str);
    EscapeOneMore(input, 3);
    str := Escape('"', "&quot;", str);
    EscapeOneMore(input, 4);
    str := Escape('\'', "&#039;", str);
    DecodeInverts(input, |ENTITIES|);
  }

  lemma {:induction false} EscapeNone(s: string)
    ensures Simultaneous(s, 0) == s
  {
    if s != "" { EscapeNone(s[1..]); }
  }

  // Text in which no match can start is copied.
  lemma {:induction false} ReplaceSkips(w: string, r: string, p: string, t: string)
    requires w != "" && w[0] !in p
    ensures Replace(Literal(w), r, p + t) == p + Replace(Literal(w), r, t)
  {
    if p == "" {
      assert p + t == t;
    } else {
      assert (p + t)[0] == p[0];
      assert (p + t)[1..] == p[1..] + t;
      ReplaceSkips(w, r, p[1..], t);
    }
  }

  /** Replacing the next character in what the earlier replacements wrote touches none of
      their entities. */
  lemma {:induction false} EscapeOneMore(s: string, n: nat)
    requires n < |ENTITIES|
    ensures Escape(ENTITIES[n].0, ENTITIES[n].1, Simultaneous(s, n)) == Simultaneous(s, n + 1)
  {
    if s != "" {
      var (c, e) := ENTITIES[n];
      var rest := Simultaneous(s[1..], n);
      EscapeOneMore(s[1..], n);
      EntityGrows(s[0], n);
      if s[0] == c {
        assert [c] <= [c] + rest && ([c] + rest)[1..] == rest;
      } else {
        ReplaceSkips([c], e, Entity(s[0], n), rest);
      }
    }
  }

  lemma EntityGrows(x: char, n: nat)
    requires n < |ENTITIES|
    ensures x == ENTITIES[n].0 ==> Entity(x, n) == [x] && Entity(x, n + 1) == ENTITIES[n].1
    ensures x != ENTITIES[n].0 ==> Entity(x, n) == Entity(x, n + 1) && ENTITIES[n].0 !in Entity(x, n)
    ensures n > 0 && x == '&' ==> Entity(x, n) == "&amp;"
  {
    assert Escaped(x, n + 1) <==> Escaped(x, n) || x == ENTITIES[n].0;
    assert ENTITIES[0].0 == '&';
  }

  // Entities have their ampersand in front and differ in their next character.
  lemma EntitiesDiffer(x: char, n: nat, t: string)
    requires n < |ENTITIES| && x != ENTITIES[n].0
    ensures !(ENTITIES[n].1 <= Entity(x, n) + t)
    ensures '&' !in Entity(x, n)[1..]
  {
    var u, e := Entity(x, n) + t, ENTITIES[n].1;
    EntityGrows(x, n);
    if Entity(x, n) == [x] {
      assert u[0] == x;
    } else {
      assert u[1] == Entity(x, n)[1] != e[1];
    }
  }

  lemma UnescapeHead(e: string, r: string, t: string)
    requires e != ""
    ensures Replace(Literal(e), r, e + t) == r + Replace(Literal(e), r, t)
  {
    assert (e + t)[|e|..] == t;
  }

  lemma UnescapeSkips(e: string, r: string, p: string, t: string)
    requires e != "" && p != "" && e[0] !in p[1..] && !(e <= p + t)
    ensures Replace(Literal(e), r, p + t) == p + Replace(Literal(e), r, t)
  {
    var s, m := p + t, Literal(e);
    assert s[0] == p[0] && s[1..] == p[1..] + t;
    assert Replace(m, r, s) == [p[0]] + Replace(m, r, s[1..]);
    ReplaceSkips(e, r, p[1..], t);
    assert [p[0]] + (p[1..] + Replace(m, r, t)) == p + Replace(m, r, t);
  }

  lemma {:induction false} UnescapeOne(s: string, n: nat)
    requires n < |ENTITIES|
    ensures Unescape(ENTITIES[n].1, ENTITIES[n].0, Simultaneous(s, n + 1)) == Simultaneous(s, n)
  {
    if s != "" {
      var rest := Simultaneous(s[1..], n + 1);
      UnescapeOne(s[1..], n);
      EntityGrows(s[0], n);
      if s[0] == ENTITIES[n].0 {
        UnescapeHead(ENTITIES[n].1, [s[0]], rest);
      } else {
        EntitiesDiffer(s[0], n, rest);
        UnescapeSkips(ENTITIES[n].1, [ENTITIES[n].0], Entity(s[0], n), rest);
      }
    }
  }

  /** Decoding the entities in reverse order recovers every input. */
  lemma {:induction false} DecodeInverts(s: string, n: nat)
    requires n <= |ENTITIES|
    ensures Decode(Simultaneous(s, n), n) == s
  {
    if n == 0 {
      EscapeNone(s);
    } else {
      UnescapeOne(s, n - 1);
      DecodeInverts(s, n - 1);
    }
  }
}
