/** ModConfig and the readers of the files it writes (ranger_install.py and
    updatepolicymgrpassword.py). A file that is empty or ends in a line end is the sequence of
    its lines, without their line ends. */
module Config {
  import opened Text
  import opened Wrappers

  // ---- ModConfig -----------------------------------------------------------

  /** Settings with spaces are quoted. */
  function Quoted(s: string): string {
    if ' ' in s then "\"" + s + "\"" else s
  }

  function Rendered(v: string, s: string): string { v + " = " + Quoted(s) }

  predicate IsSetting(line: string) {
    var l := LStripSpaces(line);
    !(l != "" && l[0] == '#') && '=' in line
  }

  function Var(line: string): string { RStripSpaces(Split(line, '=')[0]) }

  lemma {:induction false} SplitHasTwo(line: string)
    requires '=' in line
    ensures |Split(line, '=')| >= 2
  {
    if line[0] != '=' {
      SplitHasTwo(line[1..]);
    }
  }

  function Setting(line: string): string {
    var parts := Split(line, '=');
    if |parts| < 2 then "" else RStrip(LStripSpaces(parts[1]))
  }

  predicate IsFor(line: string, v: string) { IsSetting(line) && Var(line) == v }

  /** The file after ModConfig: the first line for v is replaced unless it already has the
      setting; without one the new line is appended. */
  function Edit(lines: seq<string>, v: string, s: string): seq<string> {
    if lines == [] then Added(v, s)
    else if IsFor(lines[0], v) then Replaced(lines[0], v, s) + lines[1..]
    else [lines[0]] + Edit(lines[1..], v, s)
  }

  /** The new line; a line end in the variable or the setting makes it several. */
  function Added(v: string, s: string): seq<string> { Split(Rendered(v, s), '\n') }

  function Replaced(line: string, v: string, s: string): seq<string>
    requires IsFor(line, v)
  {
    if Setting(line) == Quoted(s) then [line] else Added(v, s)
  }

  lemma EditStep(lines: seq<string>, v: string, s: string, i: nat)
    requires i < |lines|
    ensures IsFor(lines[i], v) ==> Edit(lines[i..], v, s) == Replaced(lines[i], v, s) + lines[i + 1..]
    ensures !IsFor(lines[i], v) ==> Edit(lines[i..], v, s) == [lines[i]] + Edit(lines[i + 1..], v, s)
    ensures lines[i..] == [lines[i]] + lines[i + 1..]
  {
    assert lines[i..][0] == lines[i] && lines[i..][1..] == lines[i + 1..];
  }

  ghost predicate Lines(lines: seq<string>) { AllFree(lines, '\n') }

  class File {
    var lines: seq<string>

    constructor ()
      ensures lines == []
    {
      lines := [];
    }

    method ModConfig(v: string, setting: string)
      modifies this
      ensures lines == Edit(old(lines), v, setting)
    {
      var varFound, alreadySet := false, false;
      var s := if ' ' in setting then "\"" + setting + "\"" else setting;
      var out: seq<string> := [];
      for i := 0 to |lines|
        invariant lines == old(lines)
        invariant Edit(lines, v, setting) == out + if varFound then lines[i..] else Edit(lines[i..], v, setting)
      {
        EditStep(lines, v, setting, i);
        var line := [lines[i]];
        if IsSetting(lines[i]) {
          if !varFound && Var(lines[i]) == v {
            varFound := true;
            if Setting(lines[i]) == s {
              alreadySet := true;
            } else {
              line := Split(v + " = " + s, '\n');
            }
          }
        }
        Assoc(out, line, if varFound then lines[i + 1..] else Edit(lines[i + 1..], v, setting));
        out := out + line;
      }
      lines := out;
      if !varFound {
        lines := lines + Split(v + " = " + s, '\n');
      }
    }

    /** Every entry of the dictionary in turn, into an emptied file. */
    method WriteConfigToFile(conf: seq<(string, string)>)
      modifies this
      ensures lines == Written([], conf)
    {
      lines := [];
      for i := 0 to |conf|
        invariant Written([], conf) == Written(lines, conf[i..])
      {
        var (key, value) := conf[i];
        if HasPassword(key) {
          value := "";
        }
        assert conf[i..][0] == conf[i] && conf[i..][1..] == conf[i + 1..];
        ModConfig(key, value);
      }
      assert conf[|conf|..] == [];
    }
  }

  /** What ModConfig leaves alone: every line but the first one for v, in order. */
  lemma EditFrame(lines: seq<string>, v: string, s: string, i: nat)
    requires i <= |lines| && forall k | 0 <= k < i :: !IsFor(lines[k], v)
    requires i < |lines| ==> IsFor(lines[i], v)
    ensures i == |lines| ==> Edit(lines, v, s) == lines + Added(v, s)
    ensures i < |lines| ==> Edit(lines, v, s) == lines[..i] + Replaced(lines[i], v, s) + lines[i + 1..]
  {
    EditSkips(lines, v, s, i);
    if i < |lines| {
      EditStep(lines, v, s, i);
      Assoc(lines[..i], Replaced(lines[i], v, s), lines[i + 1..]);
    }
  }

  lemma {:induction false} EditSkips(lines: seq<string>, v: string, s: string, i: nat)
    requires i <= |lines| && forall k | 0 <= k < i :: !IsFor(lines[k], v)
    ensures Edit(lines, v, s) == lines[..i] + Edit(lines[i..], v, s)
  {
    if i == 0 {
      assert lines[0..] == lines;
    } else {
      EditSkips(lines, v, s, i - 1);
      EditStep(lines, v, s, i - 1);
      Assoc(lines[..i - 1], [lines[i - 1]], Edit(lines[i..], v, s));
      assert lines[..i] == lines[..i - 1] + [lines[i - 1]];
    }
  }

  /** A variable that ModConfig can find again in the line it writes. */
  predicate Findable(v: string) {
    '=' !in v && (v == "" || v[|v| - 1] != ' ') && !(LStripSpaces(v) != "" && LStripSpaces(v)[0] == '#')
  }

  lemma {:induction false} LStripSpacesAppend(v: string, t: string)
    requires t != "" && t[0] == ' '
    ensures LStripSpaces(v + t) == if LStripSpaces(v) == "" then LStripSpaces(t) else LStripSpaces(v) + t
  {
    if v == "" {
      assert v + t == t;
    } else if v[0] == ' ' {
      assert (v + t)[1..] == v[1..] + t;
      LStripSpacesAppend(v[1..], t);
    }
  }

  lemma {:induction false} SplitAtEquals(v: string, t: string)
    ensures '=' !in v ==> Split(v + " =" + t, '=')[0] == v + " "
    ensures '=' in v ==> |Split(v + " =" + t, '=')[0]| < |v|
  {
    var line := v + " =" + t;
    if '=' !in v {
      assert line == (v + " ") + ['='] + t;
      SplitFirst(v + " ", t, '=');
    } else if v[0] != '=' {
      SplitAtEquals(v[1..], t);
      assert line[1..] == v[1..] + " =" + t;
    }
  }

  lemma RenderedIsFor(v: string, s: string)
    ensures IsFor(Rendered(v, s), v) <==> Findable(v)
  {
    var line := Rendered(v, s);
    var tail := " = " + Quoted(s);
    assert line == v + tail;
    LStripSpacesAppend(v, tail);
    assert tail[1] == '=' && tail[0] == ' ';
    assert LStripSpaces(tail) == tail[1..];
    assert line[|v| + 1] == '=';
    assert line == v + " =" + (" " + Quoted(s));
    SplitAtEquals(v, " " + Quoted(s));
    if '=' !in v {
      assert (v + " ")[..|v|] == v;
      assert RStripSpaces(v + " ") == RStripSpaces(v);
      assert RStripSpaces(v) == v <==> (v == "" || v[|v| - 1] != ' ');
    }
  }

  /** ModConfig twice is ModConfig once, for every file, exactly when the variable can be found
      again and neither it nor the setting holds a line end. */
  lemma IdempotentIff(v: string, s: string)
    ensures (forall lines | Lines(lines) :: Edit(Edit(lines, v, s), v, s) == Edit(lines, v, s))
       <==> Findable(v) && '\n' !in v && '\n' !in s
  {
    RenderedIsFor(v, s);
    var line := Rendered(v, s);
    RenderedFree(v, s);
    if Findable(v) && '\n' !in v && '\n' !in s {
      SplitFree(line, '\n');
      forall lines | Lines(lines) ensures Edit(Edit(lines, v, s), v, s) == Edit(lines, v, s) {
        EditTwice(lines, v, s);
      }
    } else {
      assert Lines([]);
      var once := Edit([], v, s);
      JoinSplit(line, '\n');
      if '\n' in line {
        EditGrows(once, v, s);
      } else {
        SplitFree(line, '\n');
        assert Edit(once, v, s) == [line] + Edit(once[1..], v, s);
      }
      assert |Edit(once, v, s)| > |once|;
    }
  }

  lemma QuotedFree(s: string)
    ensures '\n' in Quoted(s) <==> '\n' in s
  {
    InConcat('\n', "\"" + s, "\"");
    InConcat('\n', "\"", s);
  }

  lemma RenderedFree(v: string, s: string)
    ensures '\n' in Rendered(v, s) <==> '\n' in v || '\n' in s
  {
    var c := '\n';
    InConcat(c, v + " = ", Quoted(s));
    InConcat(c, v, " = ");
    QuotedFree(s);
  }

  lemma {:induction false} EditTwice(lines: seq<string>, v: string, s: string)
    requires IsFor(Rendered(v, s), v) && Split(Rendered(v, s), '\n') == [Rendered(v, s)]
    ensures Edit(Edit(lines, v, s), v, s) == Edit(lines, v, s)
  {
    var once := Edit(lines, v, s);
    if lines == [] || IsFor(lines[0], v) {
      if lines != [] && Setting(lines[0]) == Quoted(s) {
      } else {
        assert once[0] == Rendered(v, s);
        assert once == [Rendered(v, s)] + once[1..];
      }
    } else {
      EditTwice(lines[1..], v, s);
      assert once[1..] == Edit(lines[1..], v, s);
    }
  }

  lemma {:induction false} EditGrows(lines: seq<string>, v: string, s: string)
    requires Lines(lines) && '\n' in Rendered(v, s)
    ensures |Edit(lines, v, s)| > |lines|
  {
    JoinSplit(Rendered(v, s), '\n');
    var added := Split(Rendered(v, s), '\n');
    if lines != [] {
      if IsFor(lines[0], v) {
        NoLineEnd(lines[0]);
        QuotedFree(s);
      } else {
        EditGrows(lines[1..], v, s);
      }
    }
  }

  lemma NoLineEnd(line: string)
    requires '\n' !in line && '=' in line
    ensures '\n' !in Var(line) && '\n' !in Setting(line)
  {
    SplitHasTwo(line);
    SplitParts(line, '=');
    var a, b := Split(line, '=')[0], Split(line, '=')[1];
    assert a in Split(line, '=') && b in Split(line, '=');
    LStripSpacesIn(b, '\n');
  }

  lemma {:induction false} SplitParts(s: string, c: char)
    ensures forall p :: p in Split(s, c) ==> forall x :: x in p ==> x in s
  {
    if s != "" {
      SplitParts(s[1..], c);
      var rest := Split(s[1..], c);
      forall p | p in Split(s, c) ensures forall x :: x in p ==> x in s {
        if s[0] != c && p == [s[0]] + rest[0] {
          assert rest[0] in rest;
        } else {
          assert p == "" || p in rest;
        }
      }
    }
  }

  lemma {:induction false} LStripSpacesIn(s: string, c: char)
    ensures c in LStripSpaces(s) ==> c in s
  {
    if s != "" && s[0] == ' ' { LStripSpacesIn(s[1..], c); }
  }

  // ---- the readers ---------------------------------------------------------

  /** The text before and after the first '='. */
  function Before(s: string): string {
    if s == "" || s[0] == '=' then "" else [s[0]] + Before(s[1..])
  }

  function After(s: string): string {
    if |Before(s)| < |s| then s[|Before(s)| + 1..] else ""
  }

  function KeyOf(line: string): string { Strip(Before(Strip(line))) }

  function ValueOf(line: string): string { Strip(After(Strip(line))) }

  /** Later lines win; a line that cannot be read fails the whole file. */
  function Gather(read: string -> Option<map<string, string>>, lines: seq<string>): Option<map<string, string>> {
    if lines == [] then Some(map[])
    else
      match read(lines[0])
      case None => None
      case Some(entry) =>
        match Gather(read, lines[1..])
        case None => None
        case Some(rest) => Some(entry + rest)
  }

  /** `populate_global_dict`: lines without '=' are skipped. */
  function PlainLine(line: string): Option<map<string, string>> {
    Some(if '=' in line then map[KeyOf(line) := ValueOf(line)] else map[])
  }

  function Read(lines: seq<string>): Option<map<string, string>> { Gather(PlainLine, lines) }

  /** What is read so far, over what is still to be read. */
  function With(acc: map<string, string>, rest: Option<map<string, string>>): Option<map<string, string>> {
    match rest
    case None => None
    case Some(m) => Some(acc + m)
  }

  // One turn of a reader's loop.
  lemma GatherTurn(read: string -> Option<map<string, string>>, lines: seq<string>, i: nat, acc: map<string, string>)
    requires i < |lines|
    ensures read(lines[i]).None? ==> Gather(read, lines[i..]) == None
    ensures read(lines[i]).Some? ==>
      With(acc, Gather(read, lines[i..])) == With(acc + read(lines[i]).value, Gather(read, lines[i + 1..]))
  {
    assert lines[i..][0] == lines[i] && lines[i..][1..] == lines[i + 1..];
    var rest := Gather(read, lines[i + 1..]);
    if read(lines[i]).Some? && rest.Some? {
      PlusAssoc(acc, read(lines[i]).value, rest.value);
    }
  }

  lemma PlusAssoc(a: map<string, string>, b: map<string, string>, c: map<string, string>)
    ensures a + (b + c) == (a + b) + c
  {}

  lemma PlusEntry(acc: map<string, string>, key: string, value: string)
    ensures acc + map[key := value] == acc[key := value]
    ensures acc + map[] == acc && map[] + acc == acc
  {}

  method PopulateGlobalDict(text: string) returns (dict: map<string, string>)
    ensures Read(Split(text, '\n')) == Some(dict)
  {
    hide Split, KeyOf, ValueOf, Gather;
    var lines := Split(text, '\n');
    dict := map[];
    ghost var whole := Read(lines);
    assert lines[0..] == lines;
    if whole.Some? { PlusEntry(whole.value, "", ""); }
    for i := 0 to |lines|
      invariant With(dict, Read(lines[i..])) == whole
    {
      GatherTurn(PlainLine, lines, i, dict);
      var key, value := KeyOf(lines[i]), ValueOf(lines[i]);
      PlusEntry(dict, key, value);
      if '=' in lines[i] {
        dict := dict[key := value];
      }
    }
    NothingToRead(PlainLine, lines);
    PlusEntry(dict, "", "");
  }

  lemma NothingToRead(read: string -> Option<map<string, string>>, lines: seq<string>)
    ensures Gather(read, lines[|lines|..]) == Some(map[])
  {}

  predicate HasPassword(key: string) { Contains(key, "PASSWORD") }

  /** Keys with PASSWORD anywhere in them. */
  lemma HasPasswordIff(key: string)
    ensures HasPassword(key) <==> exists a, b :: key == a + "PASSWORD" + b
  {
    ContainsIff(key, "PASSWORD");
  }

  function Secret(key: string, value: string, keystore: string -> string): string {
    Strip(if HasPassword(key) then keystore(key) else value)
  }

  /** `populate_config_dict_from_file`: empty lines are skipped, any other line without '='
      raises, and password entries come from the keystore. */
  function StrictLine(keystore: string -> string): string -> Option<map<string, string>> {
    (line: string) =>
      if line == "" then Some(map[])
      else if '=' !in line then None
      else Some(map[KeyOf(line) := Secret(KeyOf(line), ValueOf(line), keystore)])
  }

  function ReadStrict(lines: seq<string>, keystore: string -> string): Option<map<string, string>> {
    Gather(StrictLine(keystore), lines)
  }

  method PopulateConfigDict(text: string, keystore: string -> string) returns (dict: Option<map<string, string>>)
    ensures dict == ReadStrict(Split(text, '\n'), keystore)
  {
    hide Split, KeyOf, ValueOf, Gather, Secret;
    var lines := Split(text, '\n');
    var conf: map<string, string> := map[];
    ghost var whole := ReadStrict(lines, keystore);
    assert lines[0..] == lines;
    if whole.Some? { PlusEntry(whole.value, "", ""); }
    for i := 0 to |lines|
      invariant With(conf, ReadStrict(lines[i..], keystore)) == whole
    {
      GatherTurn(StrictLine(keystore), lines, i, conf);
      PlusEntry(conf, "", "");
      if lines[i] != "" {
        if '=' !in lines[i] {
          return None;
        }
        var key := KeyOf(lines[i]);
        var value := Secret(key, ValueOf(lines[i]), keystore);
        PlusEntry(conf, key, value);
        conf := conf[key := value];
      }
    }
    NothingToRead(StrictLine(keystore), lines);
    PlusEntry(conf, "", "");
    return Some(conf);
  }

  /** The text of a file of lines. */
  function Content(lines: seq<string>): string {
    if lines == [] then "" else lines[0] + ['\n'] + Content(lines[1..])
  }

  /** The readers' split gives back the lines, and one empty line that both skip. */
  lemma {:induction false} ContentSplits(read: string -> Option<map<string, string>>, lines: seq<string>)
    requires Lines(lines) && read("") == Some(map[])
    ensures Gather(read, Split(Content(lines), '\n')) == Gather(read, lines)
  {
    if lines == [] {
      assert Gather(read, [""][1..]) == Some(map[]);
    } else {
      ContentSplits(read, lines[1..]);
      SplitFirst(lines[0], Content(lines[1..]), '\n');
      assert ([lines[0]] + Split(Content(lines[1..]), '\n'))[1..] == Split(Content(lines[1..]), '\n');
    }
  }

  // Stripping a line first does not matter to what stands on either side of its '='.
  lemma {:induction false} LStripAppend(a: string, b: string)
    requires b != "" && !IsSpace(b[0])
    ensures LStrip(a + b) == LStrip(a) + b
  {
    if a == "" {
      assert a + b == b;
    } else {
      assert (a + b)[0] == a[0] && (a + b)[1..] == a[1..] + b;
      LStripAppend(a[1..], b);
    }
  }

  lemma {:induction false} RStripAppend(a: string, b: string)
    requires a != "" && !IsSpace(a[|a| - 1])
    ensures RStrip(a + b) == a + RStrip(b)
  {
    if b == "" {
      assert a + b == a;
    } else {
      assert (a + b)[|a + b| - 1] == b[|b| - 1];
      assert (a + b)[..|a + b| - 1] == a + b[..|b| - 1];
      RStripAppend(a, b[..|b| - 1]);
    }
  }

  lemma {:induction false} RStripSpacesThenStrip(a: string)
    ensures Strip(RStripSpaces(a)) == Strip(a)
    ensures Strip(RStrip(a)) == Strip(a)
  {
    if a != "" && IsSpace(a[|a| - 1]) {
      RStripSpacesThenStrip(a[..|a| - 1]);
      DropLastSpace(a);
    }
  }

  lemma DropLastSpace(a: string)
    requires a != "" && IsSpace(a[|a| - 1])
    ensures Strip(a[..|a| - 1]) == Strip(a)
  {
    hide LStrip, IsSpace;
    var (b, c) := (a[..|a| - 1], a[|a| - 1]);
    assert a == b + [c];
    LStripSnoc(b, c);
    RStripSnoc(LStrip(b), c);
  }

  lemma RStripSnoc(t: string, c: char)
    requires IsSpace(c)
    ensures RStrip(t + [c]) == RStrip(t)
  {
    assert (t + [c])[..|t|] == t;
  }

  lemma {:induction false} LStripSnoc(b: string, c: char)
    requires IsSpace(c)
    ensures LStrip(b + [c]) == if LStrip(b) == "" then "" else LStrip(b) + [c]
  {
    hide IsSpace;
    if b == "" {
      assert b + [c] == [c] && [c][1..] == "";
    } else if IsSpace(b[0]) {
      assert (b + [c])[1..] == b[1..] + [c];
      LStripSnoc(b[1..], c);
    }
  }

  lemma {:induction false} LStripTwice(a: string)
    ensures Strip(LStrip(a)) == Strip(a)
    ensures Strip(LStripSpaces(a)) == Strip(a)
  {
    if a != "" && IsSpace(a[0]) {
      LStripTwice(a[1..]);
    }
  }

  lemma {:induction false} BeforeFree(s: string)
    ensures '=' !in Before(s)
  {
    if s != "" && s[0] != '=' {
      BeforeFree(s[1..]);
      InConcat('=', [s[0]], Before(s[1..]));
    }
  }

  lemma {:induction false} BeforeCuts(s: string)
    requires '=' in s
    ensures '=' !in Before(s) && s == Before(s) + ['='] + After(s)
  {
    BeforeFree(s);
    BeforeStops(s);
    assert s[..|Before(s)| + 1] == Before(s) + ['='];
  }

  lemma {:induction false} BeforeStops(s: string)
    requires '=' in s
    ensures |Before(s)| < |s| && s[|Before(s)|] == '=' && Before(s) == s[..|Before(s)|]
  {
    if s[0] != '=' {
      BeforeStops(s[1..]);
      var n := |Before(s[1..])|;
      assert s[..n + 1] == [s[0]] + s[1..][..n];
    }
  }

  lemma BeforeSplits(s: string)
    requires '=' in s
    ensures Before(s) == Split(s, '=')[0]
    ensures |Split(s, '=')| == 2 ==> After(s) == Split(s, '=')[1]
  {
    BeforeCuts(s);
    SplitFirst(Before(s), After(s), '=');
    JoinSplit(After(s), '=');
  }

  lemma {:induction false} BeforeUnique(a: string, b: string)
    requires '=' !in a
    ensures Before(a + ['='] + b) == a && After(a + ['='] + b) == b
  {
    var s := a + ['='] + b;
    assert s[|a|] == '=';
    if a != "" {
      BeforeUnique(a[1..], b);
      assert s[1..] == a[1..] + ['='] + b;
    }
  }

  lemma StripLine(line: string)
    requires '=' in line
    ensures Strip(line) == LStrip(Before(line)) + ['='] + RStrip(After(line))
  {
    var a, b := Before(line), After(line);
    BeforeCuts(line);
    Assoc(a, ['='], b);
    LStripAppend(a, ['='] + b);
    Assoc(LStrip(a), ['='], b);
    RStripAppend(LStrip(a) + ['='], b);
  }

  /** The reader's key and value are the stripped sides of the first '='. */
  lemma SidesOfLine(line: string)
    requires '=' in line
    ensures KeyOf(line) == Strip(Before(line)) && ValueOf(line) == Strip(After(line))
  {
    StripLine(line);
    var a, b := Before(line), After(line);
    BeforeCuts(line);
    assert '=' !in LStrip(a);
    BeforeUnique(LStrip(a), RStrip(b));
    LStripTwice(a);
    RStripSpacesThenStrip(b);
  }

  lemma SidesOfRendered(v: string, s: string)
    requires '=' !in v
    ensures '=' in Rendered(v, s)
    ensures KeyOf(Rendered(v, s)) == Strip(v) && ValueOf(Rendered(v, s)) == Strip(Quoted(s))
  {
    hide Quoted;
    var q := Quoted(s);
    var line := Rendered(v, s);
    assert line == (v + " ") + ['='] + (" " + q);
    assert line[|v| + 1] == '=';
    SpacedSides(v, q);
    InConcat('=', v, " ");
    BeforeUnique(v + " ", " " + q);
    SidesOfLine(line);
  }

  lemma SpacedSides(v: string, q: string)
    ensures Strip(v + " ") == Strip(v) && Strip(" " + q) == Strip(q)
  {
    DropLastSpace(v + " ");
    assert (v + " ")[..|v + " "| - 1] == v;
    assert (" " + q)[1..] == q;
  }

  /** A key that is written and read as it is. */
  predicate PlainKey(key: string) { '=' !in key && '\n' !in key && Trimmed(key) }

  /** What the reader finds, later lines over earlier ones. */
  function Entries(lines: seq<string>): map<string, string> {
    if lines == [] then map[]
    else PlainLine(lines[0]).value + Entries(lines[1..])
  }

  lemma {:induction false} ReadFinds(lines: seq<string>)
    ensures Read(lines) == Some(Entries(lines))
  {
    if lines != [] {
      ReadFinds(lines[1..]);
    }
  }

  /** ModConfig takes effect for the reader: no later line for v overrides it, or one with the same
      value does, and a line that it leaves alone because its setting is the new one up to a second
      "=" has no second "=". */
  predicate TakesEffect(lines: seq<string>, v: string, s: string) {
    lines == []
    || if !IsFor(lines[0], v) then TakesEffect(lines[1..], v, s)
       else if v in Entries(lines[1..]) then Entries(lines[1..])[v] == Strip(Quoted(s))
       else Setting(lines[0]) != Quoted(s) || |Split(lines[0], '=')| == 2
  }

  lemma {:induction false} StripKeeps(s: string, c: char)
    requires !IsSpace(c)
    ensures c in Strip(s) <==> c in s
  {
    LStripKeeps(s, c);
    RStripKeeps(LStrip(s), c);
  }

  lemma {:induction false} LStripKeeps(s: string, c: char)
    requires !IsSpace(c)
    ensures c in LStrip(s) <==> c in s
  {
    if s != "" && IsSpace(s[0]) {
      LStripKeeps(s[1..], c);
      InConcat(c, [s[0]], s[1..]);
      assert s == [s[0]] + s[1..];
    }
  }

  lemma {:induction false} RStripKeeps(s: string, c: char)
    requires !IsSpace(c)
    ensures c in RStrip(s) <==> c in s
  {
    if s != "" && IsSpace(s[|s| - 1]) {
      RStripKeeps(s[..|s| - 1], c);
      InConcat(c, s[..|s| - 1], [s[|s| - 1]]);
      assert s == s[..|s| - 1] + [s[|s| - 1]];
    }
  }

  lemma {:induction false} PartsFree(s: string, c: char)
    ensures forall p :: p in Split(s, c) ==> c !in p
  {
    if s != "" {
      PartsFree(s[1..], c);
      var rest := Split(s[1..], c);
      forall p | p in Split(s, c) ensures c !in p {
        if s[0] != c && p == [s[0]] + rest[0] {
          assert rest[0] in rest;
        } else {
          assert p == "" || p in rest;
        }
      }
    }
  }

  // The reader sees the setting of a line for v exactly when it has no second '='.
  lemma SettingSeen(line: string, v: string)
    requires IsFor(line, v) && Trimmed(v)
    ensures '=' in line && KeyOf(line) == v
    ensures ValueOf(line) == Strip(Setting(line)) <==> |Split(line, '=')| == 2
  {
    BeforeSplits(line);
    SidesOfLine(line);
    RStripSpacesThenStrip(Before(line));
    StripTrims(v);
    SplitHasTwo(line);
    if |Split(line, '=')| == 2 {
      SidesOfMatch(line, v);
    } else {
      SecondEquals(line);
    }
  }

  lemma SecondEquals(line: string)
    requires '=' in line && |Split(line, '=')| > 2
    ensures '=' in Strip(After(line)) && '=' !in Strip(Setting(line))
  {
    BeforeCuts(line);
    SplitFirst(Before(line), After(line), '=');
    if '=' !in After(line) { SplitFree(After(line), '='); }
    StripKeeps(After(line), '=');
    PartsFree(line, '=');
    var part := Split(line, '=')[1];
    assert part in Split(line, '=');
    LStripSpacesIn(part, '=');
    RStripKeeps(LStripSpaces(part), '=');
    StripKeeps(Setting(line), '=');
  }

  /** The reader after ModConfig: there is an entry for v, it is the new setting exactly then, and
      every other entry is as before. */
  lemma {:induction false} TakesEffectIff(lines: seq<string>, v: string, s: string)
    requires PlainKey(v) && '\n' !in s
    ensures v in Entries(Edit(lines, v, s))
    ensures Entries(Edit(lines, v, s))[v] == Strip(Quoted(s)) <==> TakesEffect(lines, v, s)
    ensures Entries(Edit(lines, v, s)) - {v} == Entries(lines) - {v}
  {
    hide Split, Strip, KeyOf, ValueOf, Var, Setting, Rendered, Quoted, IsSetting;
    if lines == [] {
      RenderedEntry(v, s, []);
    } else if IsFor(lines[0], v) {
      TakesEffectHere(lines, v, s);
    } else {
      TakesEffectIff(lines[1..], v, s);
      EditStep(lines, v, s, 0);
      assert lines[0..] == lines;
      assert ([lines[0]] + Edit(lines[1..], v, s))[1..] == Edit(lines[1..], v, s);
      SameElse(PlainLine(lines[0]).value, Entries(lines[1..]), Entries(Edit(lines[1..], v, s)), v);
    }
  }

  lemma SameElse(e: map<string, string>, m: map<string, string>, m': map<string, string>, v: string)
    requires m' - {v} == m - {v}
    ensures (e + m') - {v} == (e + m) - {v}
  {
    forall k | k != v ensures k in m' <==> k in m {
      assert k in m' - {v} <==> k in m - {v};
    }
    forall k | k != v && k in m ensures m'[k] == m[k] {
      assert (m' - {v})[k] == (m - {v})[k];
    }
  }

  lemma RenderedEntry(v: string, s: string, rest: seq<string>)
    requires PlainKey(v) && '\n' !in s
    ensures Added(v, s) == [Rendered(v, s)]
    ensures Entries([Rendered(v, s)] + rest) == map[v := Strip(Quoted(s))] + Entries(rest)
  {
    hide PlainLine, Rendered, Added, Strip, Quoted, Split, PlainKey, Entries;
    PlainRendered(v, s);
    EntriesCons(Rendered(v, s), rest);
  }

  lemma EntriesCons(line: string, rest: seq<string>)
    ensures Entries([line] + rest) == PlainLine(line).value + Entries(rest)
  {
    hide PlainLine;
    assert ([line] + rest)[1..] == rest;
  }

  lemma TakesEffectHere(lines: seq<string>, v: string, s: string)
    requires PlainKey(v) && '\n' !in s && lines != [] && IsFor(lines[0], v)
    ensures v in Entries(Edit(lines, v, s))
    ensures Entries(Edit(lines, v, s))[v] == Strip(Quoted(s)) <==> TakesEffect(lines, v, s)
    ensures Entries(Edit(lines, v, s)) - {v} == Entries(lines) - {v}
  {
    hide Split, Strip, KeyOf, ValueOf, Rendered, Quoted, IsFor, Setting, Edit, Entries, PlainKey, Added;
    var rest := lines[1..];
    TrimmedKey(v);
    SettingSeen(lines[0], v);
    RenderedEntry(v, s, rest);
    EntriesCons(lines[0], rest);
    EditStep(lines, v, s, 0);
    assert lines[0..] == lines && lines == [lines[0]] + rest;
    assert Entries(lines) == map[v := ValueOf(lines[0])] + Entries(rest);
  }

  /** The reader after ModConfig has the new setting, and every other entry as before, exactly then. */
  lemma ReadAfterEdit(lines: seq<string>, v: string, s: string)
    requires PlainKey(v) && '\n' !in s
    ensures Read(lines).Some?
    ensures Read(Edit(lines, v, s)) == Some(Read(lines).value[v := Strip(Quoted(s))]) <==> TakesEffect(lines, v, s)
  {
    hide TakesEffect, Edit, Entries, Strip, Quoted;
    ReadFinds(lines);
    ReadFinds(Edit(lines, v, s));
    TakesEffectIff(lines, v, s);
    var (before, after) := (Entries(lines), Entries(Edit(lines, v, s)));
    UpdatedAt(before, after, v);
  }

  lemma UpdatedAt(before: map<string, string>, after: map<string, string>, v: string)
    requires v in after && after - {v} == before - {v}
    ensures after == before[v := after[v]]
  {
    forall k | k != v ensures k in after <==> k in before {
      assert k in after - {v} <==> k in before - {v};
    }
    forall k | k != v && k in before ensures after[k] == before[k] {
      assert (after - {v})[k] == (before - {v})[k];
    }
  }

  /** The line that ModConfig takes for v, if any, has a single '=' and is the reader's last for v. */
  predicate Unambiguous(lines: seq<string>, v: string) {
    lines == []
    || if IsFor(lines[0], v) then |Split(lines[0], '=')| == 2 && v !in Entries(lines[1..])
       else Unambiguous(lines[1..], v)
  }

  /** On such a file every setting takes effect. */
  lemma {:induction false} UnambiguousTakesEffect(lines: seq<string>, v: string, s: string)
    requires Unambiguous(lines, v)
    ensures TakesEffect(lines, v, s)
  {
    hide IsFor, Setting, Split, Entries;
    if lines != [] && !IsFor(lines[0], v) {
      UnambiguousTakesEffect(lines[1..], v, s);
    }
  }

  /** A value that holds "=" cannot be cut down to what stands before it: ModConfig takes the line
      for set already. */
  lemma LeftAlone(line: string, v: string, s: string)
    requires PlainKey(v) && '\n' !in s && IsFor(line, v) && Setting(line) == Quoted(s) && |Split(line, '=')| > 2
    ensures Edit([line], v, s) == [line] && Entries([line]) == map[v := ValueOf(line)]
    ensures ValueOf(line) != Strip(Quoted(s))
  {
    hide Split, KeyOf, ValueOf, Setting, Quoted, Strip, IsSetting, Var, PlainKey, Entries;
    TrimmedKey(v);
    SettingSeen(line, v);
    EntriesCons(line, []);
    assert [line] + [] == [line] && [line][1..] == [];
    NoEntries();
  }

  // For example, setting k to a in the line "k = a=b" changes nothing.
  const CUT := "k = a=b"

  lemma CutSplits()
    ensures Split(CUT, '=') == ["k ", " a", "b"]
  {
    assert CUT == "k " + ['='] + " a=b" && " a=b" == " a" + ['='] + "b";
    hide Split;
    SplitFirst("k ", " a=b", '=');
    SplitFirst(" a", "b", '=');
    SplitFree("b", '=');
  }

  lemma CutIsFor()
    ensures IsFor(CUT, "k") && Setting(CUT) == Quoted("a")
  {
    CutSplits();
    hide Split;
    assert CUT[2] == '=';
    assert "k "[..1] == "k" && " a"[1..] == "a";
    assert RStripSpaces("k") == "k" && LStripSpaces("a") == "a" && RStrip("a") == "a";
  }

  lemma CutDown()
    ensures Edit([CUT], "k", "a") == [CUT] && Entries([CUT]) == map["k" := ValueOf(CUT)] && ValueOf(CUT) != Strip("a")
  {
    CutSplits();
    CutIsFor();
    hide Split, IsFor, Setting, Edit, Entries, ValueOf, Strip;
    LeftAlone(CUT, "k", "a");
  }

  lemma TrimmedKey(v: string)
    requires PlainKey(v)
    ensures Trimmed(v)
  {}

  lemma NoEntries()
    ensures Entries([]) == map[]
  {}

  lemma PlainRendered(v: string, s: string)
    requires PlainKey(v) && '\n' !in s
    ensures PlainLine(Rendered(v, s)) == Some(map[v := Strip(Quoted(s))])
    ensures Added(v, s) == [Rendered(v, s)]
  {
    RenderedFree(v, s);
    SplitFree(Rendered(v, s), '\n');
    SidesOfRendered(v, s);
    StripTrims(v);
  }

  lemma SidesOfMatch(line: string, v: string)
    requires IsFor(line, v) && |Split(line, '=')| == 2 && Trimmed(v)
    ensures KeyOf(line) == v && ValueOf(line) == Strip(Setting(line))
  {
    BeforeSplits(line);
    SidesOfLine(line);
    RStripSpacesThenStrip(Before(line));
    StripTrims(v);
    RStripSpacesThenStrip(LStripSpaces(After(line)));
    LStripTwice(After(line));
  }

  // ---- write_config_to_file, then read back --------------------------------

  function Blanked(entry: (string, string)): string {
    if HasPassword(entry.0) then "" else entry.1
  }

  function Written(lines: seq<string>, conf: seq<(string, string)>): seq<string>
    decreases |conf|
  {
    if conf == [] then lines else Written(Edit(lines, conf[0].0, Blanked(conf[0])), conf[1..])
  }

  ghost predicate PlainConf(conf: seq<(string, string)>) {
    && (forall i | 0 <= i < |conf| :: PlainKey(conf[i].0) && '\n' !in conf[i].1)
    && (forall i, j | 0 <= i < j < |conf| :: conf[i].0 != conf[j].0)
  }

  function Build(f: ((string, string)) -> string, conf: seq<(string, string)>): map<string, string> {
    if conf == [] then map[] else map[conf[0].0 := f(conf[0])] + Build(f, conf[1..])
  }

  /** The dictionary that the entries enumerate. */
  function Dict(conf: seq<(string, string)>): map<string, string> {
    Build((entry: (string, string)) => entry.1, conf)
  }

  /** What reading an entry back gives: its value quoted and stripped, a password from the
      keystore. */
  function Fetched(keystore: string -> string): ((string, string)) -> string {
    (entry: (string, string)) => Secret(entry.0, Quoted(entry.1), keystore)
  }

  function Returned(conf: seq<(string, string)>, keystore: string -> string): map<string, string> {
    Build(Fetched(keystore), conf)
  }

  function RenderedConf(conf: seq<(string, string)>): seq<string> {
    if conf == [] then [] else [Rendered(conf[0].0, Blanked(conf[0]))] + RenderedConf(conf[1..])
  }

  lemma RenderedNotFor(key: string, s: string, v: string)
    requires PlainKey(key) && key != v
    ensures !IsFor(Rendered(key, s), v)
  {
    assert Rendered(key, s) == key + " =" + (" " + Quoted(s));
    SplitAtEquals(key, " " + Quoted(s));
    assert (key + " ")[..|key|] == key;
    assert RStripSpaces(key + " ") == RStripSpaces(key) == key;
  }

  lemma {:induction false} EveryEntryAppended(lines: seq<string>, conf: seq<(string, string)>)
    requires PlainConf(conf)
    requires forall i, j | 0 <= i < |lines| && 0 <= j < |conf| :: !IsFor(lines[i], conf[j].0)
    ensures Written(lines, conf) == lines + RenderedConf(conf)
    decreases |conf|
  {
    hide IsFor, Rendered, Edit, PlainKey, Blanked;
    if conf != [] {
      EntryAppended(lines, conf[0]);
      NoneIsFor(lines, conf);
      EveryEntryAppended(lines + [Rendered(conf[0].0, Blanked(conf[0]))], conf[1..]);
      Assoc(lines, [Rendered(conf[0].0, Blanked(conf[0]))], RenderedConf(conf[1..]));
    }
  }

  // The line for the first entry is for none of the others.
  lemma NoneIsFor(lines: seq<string>, conf: seq<(string, string)>)
    requires PlainConf(conf) && conf != []
    requires forall i, j | 0 <= i < |lines| && 0 <= j < |conf| :: !IsFor(lines[i], conf[j].0)
    ensures var lines' := lines + [Rendered(conf[0].0, Blanked(conf[0]))];
      forall i, j | 0 <= i < |lines'| && 0 <= j < |conf[1..]| :: !IsFor(lines'[i], conf[1..][j].0)
  {
    hide IsFor, Rendered, PlainKey, Blanked;
    var lines' := lines + [Rendered(conf[0].0, Blanked(conf[0]))];
    forall i, j | 0 <= i < |lines'| && 0 <= j < |conf[1..]| ensures !IsFor(lines'[i], conf[1..][j].0) {
      assert conf[1..][j] == conf[j + 1];
      if i == |lines| { RenderedNotFor(conf[0].0, Blanked(conf[0]), conf[j + 1].0); }
    }
  }

  lemma EntryAppended(lines: seq<string>, entry: (string, string))
    requires PlainKey(entry.0) && '\n' !in entry.1
    requires forall i | 0 <= i < |lines| :: !IsFor(lines[i], entry.0)
    ensures Edit(lines, entry.0, Blanked(entry)) == lines + [Rendered(entry.0, Blanked(entry))]
  {
    EditFrame(lines, entry.0, Blanked(entry), |lines|);
    RenderedFree(entry.0, Blanked(entry));
    SplitFree(Rendered(entry.0, Blanked(entry)), '\n');
  }

  lemma EntryReadsBack(entry: (string, string), keystore: string -> string)
    requires PlainKey(entry.0)
    ensures StrictLine(keystore)(Rendered(entry.0, Blanked(entry))) == Some(map[entry.0 := Fetched(keystore)(entry)])
  {
    var line := Rendered(entry.0, Blanked(entry));
    SidesOfRendered(entry.0, Blanked(entry));
    StripTrims(entry.0);
    assert line != "";
    SecretOnce(entry, keystore);
  }

  lemma SecretOnce(entry: (string, string), keystore: string -> string)
    ensures Secret(entry.0, Strip(Quoted(Blanked(entry))), keystore) == Secret(entry.0, Quoted(entry.1), keystore)
  {
    StripTrims(Quoted(entry.1));
    StripTrims(Strip(Quoted(entry.1)));
  }

  lemma {:induction false} GatherBuilds(read: string -> Option<map<string, string>>, f: ((string, string)) -> string,
                                        lines: seq<string>, conf: seq<(string, string)>)
    requires |lines| == |conf|
    requires forall i | 0 <= i < |conf| :: read(lines[i]) == Some(map[conf[i].0 := f(conf[i])])
    ensures Gather(read, lines) == Some(Build(f, conf))
  {
    if conf != [] {
      GatherBuilds(read, f, lines[1..], conf[1..]);
    }
  }

  lemma {:induction false} RenderedConfAt(conf: seq<(string, string)>)
    ensures |RenderedConf(conf)| == |conf|
    ensures forall i | 0 <= i < |conf| :: RenderedConf(conf)[i] == Rendered(conf[i].0, Blanked(conf[i]))
  {
    if conf != [] {
      RenderedConfAt(conf[1..]);
    }
  }

  /** Writing a dictionary and reading the file's text back, for every order of its entries. */
  lemma WriteThenRead(conf: seq<(string, string)>, keystore: string -> string)
    requires PlainConf(conf)
    ensures ReadStrict(Split(Content(Written([], conf)), '\n'), keystore) == Some(Returned(conf, keystore))
  {
    EveryEntryAppended([], conf);
    assert [] + RenderedConf(conf) == RenderedConf(conf);
    var lines := RenderedConf(conf);
    RenderedConfAt(conf);
    forall i | 0 <= i < |lines| ensures '\n' !in lines[i] {
      RenderedFree(conf[i].0, Blanked(conf[i]));
    }
    ContentSplits(StrictLine(keystore), lines);
    forall i | 0 <= i < |conf|
      ensures StrictLine(keystore)(lines[i]) == Some(map[conf[i].0 := Fetched(keystore)(conf[i])])
    {
      EntryReadsBack(conf[i], keystore);
    }
    GatherBuilds(StrictLine(keystore), Fetched(keystore), lines, conf);
  }

  lemma QuotedReadsBack(value: string)
    ensures Strip(Quoted(value)) == value <==> ' ' !in value && Trimmed(value)
  {
    hide Strip;
    StripTrims(Quoted(value));
    StripTrims(value);
    if ' ' in value {
      assert Quoted(value)[0] == '"' && Quoted(value)[|value| + 1] == '"';
      assert Trimmed(Quoted(value));
    }
  }

  lemma {:induction false} BuildAt(f: ((string, string)) -> string, conf: seq<(string, string)>, i: nat)
    requires i < |conf| && forall j, k | 0 <= j < k < |conf| :: conf[j].0 != conf[k].0
    ensures conf[i].0 in Build(f, conf) && Build(f, conf)[conf[i].0] == f(conf[i])
  {
    BuildKeys(f, conf[1..]);
    if i > 0 {
      BuildAt(f, conf[1..], i - 1);
    }
  }

  lemma {:induction false} BuildKeys(f: ((string, string)) -> string, conf: seq<(string, string)>)
    ensures forall k :: k in Build(f, conf) ==> exists i :: 0 <= i < |conf| && conf[i].0 == k
  {
    if conf != [] {
      BuildKeys(f, conf[1..]);
      assert Build(f, conf) == map[conf[0].0 := f(conf[0])] + Build(f, conf[1..]);
      forall k | k in Build(f, conf) ensures exists i :: 0 <= i < |conf| && conf[i].0 == k {
        if k == conf[0].0 {
          assert conf[0].0 == k;
        } else {
          assert k in Build(f, conf[1..]);
          var i :| 0 <= i < |conf[1..]| && conf[1..][i].0 == k;
          assert conf[i + 1].0 == k;
        }
      }
    }
  }

  lemma BuildsEqual(f: ((string, string)) -> string, g: ((string, string)) -> string, conf: seq<(string, string)>)
    requires forall j, k | 0 <= j < k < |conf| :: conf[j].0 != conf[k].0
    ensures Build(f, conf) == Build(g, conf) <==> forall i | 0 <= i < |conf| :: f(conf[i]) == g(conf[i])
  {
    if forall i | 0 <= i < |conf| :: f(conf[i]) == g(conf[i]) {
      SameBuild(f, g, conf);
    }
    forall i | 0 <= i < |conf| && Build(f, conf) == Build(g, conf) ensures f(conf[i]) == g(conf[i]) {
      BuildAt(f, conf, i);
      BuildAt(g, conf, i);
    }
  }

  lemma {:induction false} SameBuild(f: ((string, string)) -> string, g: ((string, string)) -> string,
                                     conf: seq<(string, string)>)
    requires forall i | 0 <= i < |conf| :: f(conf[i]) == g(conf[i])
    ensures Build(f, conf) == Build(g, conf)
  {
    if conf != [] {
      SameBuild(f, g, conf[1..]);
    }
  }

  /** The round trip, with its exact condition: every non-password value is free of spaces and
      trimmed, and every password is what the keystore gives. Values may hold '='. */
  lemma RoundTripIff(conf: seq<(string, string)>, keystore: string -> string)
    requires PlainConf(conf)
    ensures ReadStrict(Split(Content(Written([], conf)), '\n'), keystore) == Some(Dict(conf))
       <==> forall i | 0 <= i < |conf| :: ComesBack(conf[i], keystore)
  {
    hide Split, Strip, Quoted, Content, Written, HasPassword, ReadStrict, Gather, Build, PlainKey;
    WriteThenRead(conf, keystore);
    BuildsEqual(Fetched(keystore), (entry: (string, string)) => entry.1, conf);
    forall i | 0 <= i < |conf| ensures Fetched(keystore)(conf[i]) == conf[i].1 <==> ComesBack(conf[i], keystore) {
      QuotedReadsBack(conf[i].1);
    }
  }

  predicate ComesBack(entry: (string, string), keystore: string -> string) {
    if HasPassword(entry.0) then Strip(keystore(entry.0)) == entry.1
    else ' ' !in entry.1 && Trimmed(entry.1)
  }

  /** The file that is written, line by line: entries in their order, a value with a space in quotes,
      and nothing after the "=" for a key with PASSWORD in it. */
  lemma WrittenLines(conf: seq<(string, string)>, i: nat)
    requires PlainConf(conf) && i < |conf|
    ensures |Written([], conf)| == |conf|
    ensures var (key, value) := conf[i];
      && ((exists a, b :: key == a + "PASSWORD" + b) ==> Written([], conf)[i] == key + " = ")
      && ((forall a, b :: key != a + "PASSWORD" + b) ==>
            Written([], conf)[i] == key + " = " + if ' ' in value then "\"" + value + "\"" else value)
  {
    EveryEntryAppended([], conf);
    assert [] + RenderedConf(conf) == RenderedConf(conf);
    RenderedConfAt(conf);
    HasPasswordIff(conf[i].0);
    hide PlainConf, Written, RenderedConf, HasPassword;
    assert conf[i].0 + " = " + "" == conf[i].0 + " = ";
  }

  // ---- the readers, line by line -----------------------------------------------

  /** No later line gives k. */
  ghost predicate LastFor(read: string -> Option<map<string, string>>, lines: seq<string>, i: nat, k: string) {
    i < |lines| && read(lines[i]).Some? && k in read(lines[i]).value
    && forall j | i < j < |lines| :: read(lines[j]).Some? ==> k !in read(lines[j]).value
  }

  /** What is read for k is what the last line with k gives. */
  lemma {:induction false} GatherLast(read: string -> Option<map<string, string>>, lines: seq<string>, i: nat,
                                      k: string)
    requires Gather(read, lines).Some? && LastFor(read, lines, i, k)
    ensures k in Gather(read, lines).value && Gather(read, lines).value[k] == read(lines[i]).value[k]
  {
    if i > 0 {
      assert LastFor(read, lines[1..], i - 1, k);
      GatherLast(read, lines[1..], i - 1, k);
    } else {
      NotGathered(read, lines[1..], k);
    }
  }

  lemma {:induction false} NotGathered(read: string -> Option<map<string, string>>, lines: seq<string>, k: string)
    requires Gather(read, lines).Some?
    requires forall j | 0 <= j < |lines| :: read(lines[j]).Some? ==> k !in read(lines[j]).value
    ensures k !in Gather(read, lines).value
  {
    if lines != [] {
      NotGathered(read, lines[1..], k);
    }
  }

  lemma {:induction false} GatherFailsIff(read: string -> Option<map<string, string>>, lines: seq<string>)
    ensures Gather(read, lines) == None <==> exists i :: 0 <= i < |lines| && read(lines[i]) == None
  {
    if lines != [] {
      GatherFailsIff(read, lines[1..]);
      assert lines == [lines[0]] + lines[1..];
    }
  }

  /** `populate_config_dict_from_file` raises exactly on a line that is not empty and has no "=". */
  lemma StrictFailsIff(lines: seq<string>, keystore: string -> string)
    ensures ReadStrict(lines, keystore) == None <==> exists i :: 0 <= i < |lines| && lines[i] != "" && '=' !in lines[i]
  {
    hide KeyOf, ValueOf, Secret;
    GatherFailsIff(StrictLine(keystore), lines);
    forall i | 0 <= i < |lines|
      ensures StrictLine(keystore)(lines[i]) == None <==> lines[i] != "" && '=' !in lines[i] {}
  }

  /** `key = value` or the like is the last line with an "=" whose key is the same. */
  predicate LastLine(lines: seq<string>, i: nat, key: string) {
    i < |lines| && '=' in lines[i] && Strip(Before(lines[i])) == key
    && forall j | i < j < |lines| :: '=' in lines[j] ==> Strip(Before(lines[j])) != key
  }

  lemma PlainEntry(line: string)
    ensures PlainLine(line) == Some(if '=' in line then map[Strip(Before(line)) := Strip(After(line))] else map[])
  {
    hide KeyOf, ValueOf, Strip, Before, After;
    if '=' in line {
      SidesOfLine(line);
    }
  }

  function StrictSides(line: string, keystore: string -> string): map<string, string> {
    map[Strip(Before(line)) := Secret(Strip(Before(line)), Strip(After(line)), keystore)]
  }

  lemma StrictEntry(line: string, keystore: string -> string)
    ensures '=' in line ==> StrictLine(keystore)(line) == Some(StrictSides(line, keystore))
    ensures '=' !in line ==> StrictLine(keystore)(line) in {None, Some(map[])}
  {
    hide KeyOf, ValueOf, Strip, Before, After, Secret;
    if '=' in line {
      SidesOfLine(line);
    }
  }

  /** What the plain reader has for a key: the stripped text after the first "=" of its last line. */
  lemma PlainReads(lines: seq<string>, i: nat, key: string)
    requires LastLine(lines, i, key)
    ensures Read(lines).Some? && key in Read(lines).value && Read(lines).value[key] == Strip(After(lines[i]))
  {
    hide PlainLine, Strip, Before, After, Gather;
    forall j | 0 <= j < |lines| ensures PlainLine(lines[j]) ==
      Some(if '=' in lines[j] then map[Strip(Before(lines[j])) := Strip(After(lines[j]))] else map[])
    {
      PlainEntry(lines[j]);
    }
    ReadFinds(lines);
    GatherLast(PlainLine, lines, i, key);
  }

  /** The strict reader the same, but passwords come from the keystore, whatever the line says. */
  lemma StrictReads(lines: seq<string>, keystore: string -> string, i: nat, key: string)
    requires LastLine(lines, i, key) && ReadStrict(lines, keystore).Some?
    ensures var dict := ReadStrict(lines, keystore).value;
      && key in dict
      && ((exists a, b :: key == a + "PASSWORD" + b) ==> dict[key] == Strip(keystore(key)))
      && ((forall a, b :: key != a + "PASSWORD" + b) ==> dict[key] == Strip(After(lines[i])))
  {
    hide StrictLine, Strip, Before, After, Gather, Secret;
    forall j | 0 <= j < |lines|
      ensures '=' in lines[j] ==> StrictLine(keystore)(lines[j]) == Some(StrictSides(lines[j], keystore))
      ensures '=' !in lines[j] ==> StrictLine(keystore)(lines[j]) in {None, Some(map[])}
    {
      StrictEntry(lines[j], keystore);
    }
    GatherLast(StrictLine(keystore), lines, i, key);
    SecretIs(key, After(lines[i]), keystore);
  }

  lemma SecretIs(key: string, text: string, keystore: string -> string)
    ensures (exists a, b :: key == a + "PASSWORD" + b) ==> Secret(key, Strip(text), keystore) == Strip(keystore(key))
    ensures (forall a, b :: key != a + "PASSWORD" + b) ==> Secret(key, Strip(text), keystore) == Strip(text)
  {
    hide Strip, HasPassword;
    HasPasswordIff(key);
    StripTrims(text);
    StripTrims(Strip(text));
  }

  // ---- the lines that ModConfig takes ------------------------------------------

  ghost predicate Comment(line: string) { exists a, t :: AllBlanks(a) && line == a + "#" + t }

  lemma CommentIff(line: string)
    ensures Comment(line) <==> LStripSpaces(line) != "" && LStripSpaces(line)[0] == '#'
  {
    var l := LStripSpaces(line);
    LStripSpacesParts(line);
    if l != "" && l[0] == '#' {
      assert line == line[..|line| - |l|] + "#" + l[1..];
    }
    forall a, t | AllBlanks(a) && line == a + "#" + t ensures l != "" && l[0] == '#' {
      assert a + "#" + t == a + ("#" + t);
      LStripSpacesIs(a, "#" + t);
    }
  }

  /** The lines for v: blanks at most between v and the first "=", and not a comment. */
  lemma IsForIff(line: string, v: string)
    ensures IsFor(line, v) <==>
      !Comment(line) && '=' !in v && (v == "" || v[|v| - 1] != ' ')
      && exists b, rest :: AllBlanks(b) && line == v + b + "=" + rest
  {
    CommentIff(line);
    hide Comment, Split, LStripSpaces, Var, Before, After;
    if IsFor(line, v) {
      var b := BlanksAfter(line, v);
      assert line == v + b + "=" + After(line);
    }
    forall b, rest | '=' !in v && (v == "" || v[|v| - 1] != ' ') && AllBlanks(b) && line == v + b + "=" + rest
      ensures '=' in line && Var(line) == v
    {
      VarIs(v, b, rest);
    }
  }

  lemma BlanksAfter(line: string, v: string) returns (b: string)
    requires '=' in line && Var(line) == v
    ensures AllBlanks(b) && line == v + b + "=" + After(line) && '=' !in v && (v == "" || v[|v| - 1] != ' ')
  {
    hide Split, Before, After, LStripSpaces;
    BeforeSplits(line);
    BeforeCuts(line);
    var p := Before(line);
    RStripSpacesParts(p);
    b := p[|v|..];
    assert p == v + b;
    InConcat('=', v, b);
  }

  lemma VarIs(v: string, b: string, rest: string)
    requires '=' !in v && (v == "" || v[|v| - 1] != ' ') && AllBlanks(b)
    ensures '=' in v + b + "=" + rest && Var(v + b + "=" + rest) == v
  {
    var line := v + b + "=" + rest;
    InConcat('=', v, b);
    assert line[|v + b|] == '=';
    assert line == (v + b) + ['='] + rest;
    hide Split;
    SplitFirst(v + b, rest, '=');
    RStripSpacesIs(v, b);
  }

  /** The setting of such a line: what stands before the next "=" or the end, without blanks in front
      and white space behind. */
  lemma SettingIs(p: string, a: string, t: string, z: string, more: string)
    requires '=' !in p && '=' !in t && AllBlanks(a) && AllSpaces(z)
    requires t == "" || (t[0] != ' ' && !IsSpace(t[|t| - 1]))
    requires t == "" ==> z == ""
    requires more == "" || more[0] == '='
    ensures Setting(p + "=" + (a + t + z) + more) == t
  {
    var part := a + t + z;
    forall c | c in part ensures c != '=' {
      InConcat(c, a + t, z);
      InConcat(c, a, t);
    }
    SecondPart(p, part, more);
    hide Split;
    Assoc(a, t, z);
    LStripSpacesIs(a, t + z);
    RStripIs(t, z);
  }

  lemma SecondPart(p: string, part: string, more: string)
    requires '=' !in p && '=' !in part && (more == "" || more[0] == '=')
    ensures var parts := Split(p + "=" + part + more, '='); |parts| >= 2 && parts[1] == part
  {
    hide Split;
    assert p + "=" + part + more == p + ['='] + (part + more);
    SplitFirst(p, part + more, '=');
    if more == "" {
      assert part + more == part;
      SplitFree(part, '=');
    } else {
      assert part + more == part + ['='] + more[1..];
      SplitFirst(part, more[1..], '=');
    }
  }
}
