/** String operations the modelled programs share: Python's and JavaScript's split and
    join, Python's strip family, decimal rendering and a stable sort. */
module Text {

  /** `s.split(c)`: never empty, and splitting "" gives [""]. */
  function Split(s: string, c: char): (parts: seq<string>)
    ensures |parts| >= 1
  {
    if s == "" then [""]
    else
      var rest := Split(s[1..], c);
      if s[0] == c then [""] + rest else [[s[0]] + rest[0]] + rest[1..]
  }

  /** `parts.join(c)`. */
  function Join(parts: seq<string>, c: char): string {
    if parts == [] then ""
    else if |parts| == 1 then parts[0]
    else parts[0] + [c] + Join(parts[1..], c)
  }

  ghost predicate AllFree(parts: seq<string>, c: char) {
    forall i | 0 <= i < |parts| :: c !in parts[i]
  }

  lemma {:induction false} SplitFree(s: string, c: char)
    requires c !in s
    ensures Split(s, c) == [s]
  {
    if s != "" {
      SplitFree(s[1..], c);
      assert s == [s[0]] + s[1..];
    }
  }

  lemma {:induction false} SplitFirst(p: string, rest: string, c: char)
    requires c !in p
    ensures Split(p + [c] + rest, c) == [p] + Split(rest, c)
  {
    var s := p + [c] + rest;
    if p == "" {
      assert s[1..] == rest;
    } else {
      SplitFirst(p[1..], rest, c);
      assert s[1..] == p[1..] + [c] + rest;
      assert p == [p[0]] + p[1..];
    }
  }

  lemma {:induction false} SplitJoin(parts: seq<string>, c: char)
    requires parts != [] && AllFree(parts, c)
    ensures Split(Join(parts, c), c) == parts
  {
    if |parts| == 1 {
      SplitFree(parts[0], c);
    } else {
      SplitJoin(parts[1..], c);
      SplitFirst(parts[0], Join(parts[1..], c), c);
    }
  }

  /** Whatever is split, no part holds the separator and joining gives the text back. */
  lemma {:induction false} JoinSplit(s: string, c: char)
    ensures AllFree(Split(s, c), c)
    ensures Join(Split(s, c), c) == s
  {
    if s != "" {
      JoinSplit(s[1..], c);
      var rest := Split(s[1..], c);
      assert s == [s[0]] + s[1..];
      if s[0] == c {
        assert Split(s, c)[1..] == rest;
      } else {
        assert Split(s, c)[1..] == rest[1..];
      }
    }
  }

  /** Splitting undoes joining exactly when no part holds the separator. */
  lemma SplitJoinIff(parts: seq<string>, c: char)
    requires parts != []
    ensures Split(Join(parts, c), c) == parts <==> AllFree(parts, c)
  {
    if AllFree(parts, c) {
      SplitJoin(parts, c);
    }
    JoinSplit(Join(parts, c), c);
  }

  /** `part in s`, or `s.indexOf(part) != -1` */
  predicate Contains(s: string, part: string) {
    part <= s || (s != "" && Contains(s[1..], part))
  }

  lemma {:induction false} PartOf(s: string, part: string) returns (a: string, b: string)
    requires Contains(s, part)
    ensures s == a + part + b
  {
    if part <= s {
      a, b := "", s[|part|..];
    } else {
      a, b := PartOf(s[1..], part);
      a := [s[0]] + a;
    }
  }

  lemma {:induction false} HasPart(a: string, part: string, b: string)
    ensures Contains(a + part + b, part)
  {
    if a == "" {
      assert a + part + b == part + b;
    } else {
      HasPart(a[1..], part, b);
      assert (a + part + b)[1..] == a[1..] + part + b;
    }
  }

  lemma ContainsIff(s: string, part: string)
    ensures Contains(s, part) <==> exists a, b :: s == a + part + b
  {
    if Contains(s, part) {
      var a, b := PartOf(s, part);
    }
    forall a, b | s == a + part + b ensures Contains(s, part) {
      HasPart(a, part, b);
    }
  }

  predicate IsSpace(c: char) {
    c == ' ' || c == '\t' || c == '\n' || c == '\r' || c == 11 as char || c == 12 as char
  }

  /** `s.lstrip(' ')` */
  function LStripSpaces(s: string): (r: string)
    ensures r == "" || r[0] != ' '
  {
    if s != "" && s[0] == ' ' then LStripSpaces(s[1..]) else s
  }

  /** `s.rstrip(' ')` */
  function RStripSpaces(s: string): (r: string)
    ensures r <= s
    ensures r == "" || r[|r| - 1] != ' '
  {
    if s != "" && s[|s| - 1] == ' ' then RStripSpaces(s[..|s| - 1]) else s
  }

  /** `s.rstrip()` */
  function RStrip(s: string): (r: string)
    ensures r <= s
    ensures r == "" || !IsSpace(r[|r| - 1])
  {
    if s != "" && IsSpace(s[|s| - 1]) then RStrip(s[..|s| - 1]) else s
  }

  /** `s.lstrip()` */
  function LStrip(s: string): (r: string)
    ensures r == "" || !IsSpace(r[0])
    ensures |r| <= |s| && r == s[|s| - |r|..]
  {
    if s != "" && IsSpace(s[0]) then LStrip(s[1..]) else s
  }

  /** `s.strip()` */
  function Strip(s: string): (r: string) {
    RStrip(LStrip(s))
  }

  /** No white space at either end. */
  predicate Trimmed(s: string) {
    s == "" || (!IsSpace(s[0]) && !IsSpace(s[|s| - 1]))
  }

  lemma StripTrims(s: string)
    ensures Trimmed(Strip(s))
    ensures Strip(s) == s <==> Trimmed(s)
  {
    var l := LStrip(s);
    var r := RStrip(l);
    if r != "" {
      assert r[0] == l[0];
    }
  }

  ghost predicate AllSpaces(s: string) { forall i | 0 <= i < |s| :: IsSpace(s[i]) }

  ghost predicate AllBlanks(s: string) { forall i | 0 <= i < |s| :: s[i] == ' ' }

  lemma {:induction false} LStripIs(a: string, t: string)
    requires AllSpaces(a) && (t == "" || !IsSpace(t[0]))
    ensures LStrip(a + t) == t
  {
    if a == "" {
      assert a + t == t;
    } else {
      assert (a + t)[1..] == a[1..] + t;
      LStripIs(a[1..], t);
    }
  }

  lemma {:induction false} RStripIs(t: string, b: string)
    requires AllSpaces(b) && (t == "" || !IsSpace(t[|t| - 1]))
    ensures RStrip(t + b) == t
  {
    if b == "" {
      assert t + b == t;
    } else {
      var n := |b| - 1;
      assert (t + b)[..|t| + n] == t + b[..n];
      RStripIs(t, b[..n]);
    }
  }

  /** Stripping takes off exactly the white space at both ends. */
  lemma StripIs(a: string, t: string, b: string)
    requires AllSpaces(a) && AllSpaces(b) && Trimmed(t)
    ensures Strip(a + t + b) == t
  {
    if t == "" {
      assert a + t + b == a + b + "";
      LStripIs(a + b, "");
    } else {
      assert a + t + b == a + (t + b);
      LStripIs(a, t + b);
      RStripIs(t, b);
    }
  }

  /** The same for blanks only, at one end. */
  lemma {:induction false} LStripSpacesIs(a: string, t: string)
    requires AllBlanks(a) && (t == "" || t[0] != ' ')
    ensures LStripSpaces(a + t) == t
  {
    if a == "" {
      assert a + t == t;
    } else {
      assert (a + t)[1..] == a[1..] + t;
      LStripSpacesIs(a[1..], t);
    }
  }

  lemma {:induction false} RStripSpacesIs(t: string, b: string)
    requires AllBlanks(b) && (t == "" || t[|t| - 1] != ' ')
    ensures RStripSpaces(t + b) == t
  {
    if b == "" {
      assert t + b == t;
    } else {
      var n := |b| - 1;
      assert (t + b)[..|t| + n] == t + b[..n];
      RStripSpacesIs(t, b[..n]);
    }
  }

  lemma {:induction false} LStripSpacesParts(s: string)
    ensures var r := LStripSpaces(s); |r| <= |s| && AllBlanks(s[..|s| - |r|]) && r == s[|s| - |r|..]
  {
    if s != "" && s[0] == ' ' {
      LStripSpacesParts(s[1..]);
      var n := |s| - |LStripSpaces(s)|;
      assert s[..n] == [s[0]] + s[1..][..n - 1];
    }
  }

  lemma {:induction false} RStripSpacesParts(s: string)
    ensures AllBlanks(s[|RStripSpaces(s)|..])
  {
    if s != "" && s[|s| - 1] == ' ' {
      RStripSpacesParts(s[..|s| - 1]);
      var n := |RStripSpaces(s)|;
      assert s[n..] == s[..|s| - 1][n..] + [s[|s| - 1]];
    }
  }

  lemma Assoc<T>(a: seq<T>, b: seq<T>, c: seq<T>)
    ensures a + (b + c) == (a + b) + c
  {}

  lemma InConcat<T>(x: T, a: seq<T>, b: seq<T>)
    ensures x in a + b <==> x in a || x in b
  {}

  // ---- decimal rendering ---------------------------------------------------

  function Digit(d: nat): (c: char)
    requires d < 10
  {
    "0123456789"[d]
  }

  function Decimal(n: nat): (s: string)
    ensures s != ""
  {
    if n < 10 then [Digit(n)] else Decimal(n / 10) + [Digit(n % 10)]
  }

  /** `str(n)` */
  function Str(n: int): string {
    if n < 0 then "-" + Decimal(-n) else Decimal(n)
  }

  lemma {:induction false} DecimalInjective(m: nat, n: nat)
    requires Decimal(m) == Decimal(n)
    ensures m == n
  {
    var s, t := Decimal(m), Decimal(n);
    assert s[|s| - 1] == Digit(m % 10) && t[|t| - 1] == Digit(n % 10);
    assert m % 10 == n % 10;
    if m >= 10 && n >= 10 {
      assert s[..|s| - 1] == Decimal(m / 10) && t[..|t| - 1] == Decimal(n / 10);
      DecimalInjective(m / 10, n / 10);
    }
  }

  lemma {:induction false} DecimalStart(n: nat)
    ensures Decimal(n)[0] in "0123456789"
  {
    if n >= 10 {
      DecimalStart(n / 10);
    }
  }

  lemma StrInjective(m: int, n: int)
    requires Str(m) == Str(n)
    ensures m == n
  {
    DecimalStart(if m < 0 then -m else m);
    DecimalStart(if n < 0 then -n else n);
    if m < 0 && n < 0 {
      assert Str(m)[1..] == Decimal(-m) && Str(n)[1..] == Decimal(-n);
      DecimalInjective(-m, -n);
    } else if m >= 0 && n >= 0 {
      DecimalInjective(m, n);
    }
  }

  function DigitValue(c: char): int { c as int - '0' as int }

  /** The number that a row of digits denotes. */
  function Numeral(s: string): int {
    if s == "" then 0 else 10 * Numeral(s[..|s| - 1]) + DigitValue(s[|s| - 1])
  }

  lemma {:induction false} DecimalDenotes(n: nat)
    ensures Numeral(Decimal(n)) == n && (Decimal(n)[0] == '0' ==> n == 0)
    ensures forall i | 0 <= i < |Decimal(n)| :: '0' <= Decimal(n)[i] <= '9'
  {
    assert forall d: nat | d < 10 :: DigitValue(Digit(d)) == d;
    if n >= 10 {
      DecimalDenotes(n / 10);
      assert Decimal(n)[..|Decimal(n)| - 1] == Decimal(n / 10);
    } else {
      assert Decimal(n)[..0] == "";
    }
  }

  /** `str(n)` is the decimal numeral that denotes n, without leading zeros. */
  lemma StrDenotes(n: int)
    ensures n >= 0 ==> Numeral(Str(n)) == n && forall i | 0 <= i < |Str(n)| :: '0' <= Str(n)[i] <= '9'
    ensures n < 0 ==> Str(n)[0] == '-' && Numeral(Str(n)[1..]) == -n
  {
    DecimalDenotes(if n < 0 then -n else n);
    assert n < 0 ==> Str(n)[1..] == Decimal(-n);
  }

  // ---- sorting -------------------------------------------------------------

  /** Lexicographic `a <= b` on strings. */
  predicate StringLe(a: string, b: string) {
    a == "" || (b != "" && (a[0] < b[0] || (a[0] == b[0] && StringLe(a[1..], b[1..]))))
  }

  /** One text comes before another when it is a part at its front, or has the smaller character
      where they first differ. */
  ghost predicate Precedes(a: string, b: string) {
    a < b || exists i :: 0 <= i < |a| && i < |b| && a[..i] == b[..i] && a[i] < b[i]
  }

  lemma {:induction false} StringLeIff(a: string, b: string)
    ensures StringLe(a, b) <==> a == b || Precedes(a, b)
  {
    if a != "" && b != "" {
      hide Precedes;
      StringLeIff(a[1..], b[1..]);
      PrecedesTail(a, b);
      assert a == [a[0]] + a[1..] && b == [b[0]] + b[1..];
    }
  }

  lemma PrecedesTail(a: string, b: string)
    requires a != "" && b != ""
    ensures Precedes(a, b) <==> a[0] < b[0] || (a[0] == b[0] && Precedes(a[1..], b[1..]))
  {
    if Precedes(a, b) && !(a < b) {
      var i :| 0 <= i < |a| && i < |b| && a[..i] == b[..i] && a[i] < b[i];
      if i > 0 {
        assert a[0] == a[..i][0] == b[..i][0] == b[0];
        assert a[1..][..i - 1] == a[..i][1..] == b[..i][1..] == b[1..][..i - 1];
        assert a[1..][i - 1] < b[1..][i - 1];
      }
    }
    if a[0] < b[0] {
      assert a[..0] == b[..0];
    }
    if a[0] == b[0] && Precedes(a[1..], b[1..]) {
      PrecedesCons(a[0], a[1..], b[1..]);
      assert a == [a[0]] + a[1..] && b == [a[0]] + b[1..];
    }
  }

  lemma PrecedesCons(c: char, a: string, b: string)
    requires Precedes(a, b)
    ensures Precedes([c] + a, [c] + b)
  {
    if !(a < b) {
      var i :| 0 <= i < |a| && i < |b| && a[..i] == b[..i] && a[i] < b[i];
      assert ([c] + a)[..i + 1] == [c] + a[..i] && ([c] + b)[..i + 1] == [c] + b[..i];
      assert ([c] + a)[i + 1] < ([c] + b)[i + 1];
    }
  }

  lemma {:induction false} StringLeTotal(a: string, b: string)
    ensures StringLe(a, b) || StringLe(b, a)
  {
    if a != "" && b != "" {
      StringLeTotal(a[1..], b[1..]);
    }
  }

  lemma {:induction false} StringLeTransitive(a: string, b: string, c: string)
    requires StringLe(a, b) && StringLe(b, c)
    ensures StringLe(a, c)
  {
    if a != "" && b != "" && c != "" && a[0] == b[0] == c[0] {
      StringLeTransitive(a[1..], b[1..], c[1..]);
    }
  }

  ghost predicate TotalPreorder<T(!new)>(le: (T, T) -> bool) {
    && (forall a, b :: le(a, b) || le(b, a))
    && (forall a, b, c :: le(a, b) && le(b, c) ==> le(a, c))
  }

  ghost predicate SortedBy<T>(xs: seq<T>, le: (T, T) -> bool) {
    forall i, j | 0 <= i < j < |xs| :: le(xs[i], xs[j])
  }

  function Insert<T>(x: T, xs: seq<T>, le: (T, T) -> bool): seq<T> {
    if xs == [] || le(x, xs[0]) then [x] + xs else [xs[0]] + Insert(x, xs[1..], le)
  }

  /** Python's `sorted`: stable, so equal keys keep their order. */
  function Sort<T>(xs: seq<T>, le: (T, T) -> bool): seq<T> {
    if xs == [] then [] else Insert(xs[0], Sort(xs[1..], le), le)
  }

  lemma {:induction false} InsertKeeps<T(!new)>(x: T, xs: seq<T>, le: (T, T) -> bool)
    ensures multiset(Insert(x, xs, le)) == multiset{x} + multiset(xs)
    ensures forall y :: y in Insert(x, xs, le) ==> y == x || y in xs
  {
    if xs != [] && !le(x, xs[0]) {
      InsertKeeps(x, xs[1..], le);
      assert xs == [xs[0]] + xs[1..];
    }
  }

  lemma {:induction false} InsertSorts<T(!new)>(x: T, xs: seq<T>, le: (T, T) -> bool)
    requires TotalPreorder(le) && SortedBy(xs, le)
    ensures SortedBy(Insert(x, xs, le), le)
    ensures multiset(Insert(x, xs, le)) == multiset{x} + multiset(xs)
  {
    InsertKeeps(x, xs, le);
    if xs == [] || le(x, xs[0]) {
      forall j | 0 <= j < |xs| ensures le(x, xs[j]) {}
      SortedCons(x, xs, le);
    } else {
      hide TotalPreorder;
      SortedTail(xs, le);
      InsertSorts(x, xs[1..], le);
      InsertKeeps(x, xs[1..], le);
      var t := Insert(x, xs[1..], le);
      NotLe(x, xs[0], le);
      forall j | 0 <= j < |t| ensures le(xs[0], t[j]) {
        assert t[j] in t;
      }
      SortedCons(xs[0], t, le);
    }
  }

  lemma SortedCons<T(!new)>(x: T, t: seq<T>, le: (T, T) -> bool)
    requires SortedBy(t, le) && forall j | 0 <= j < |t| :: le(x, t[j])
    ensures SortedBy([x] + t, le)
  {}

  lemma SortedTail<T(!new)>(xs: seq<T>, le: (T, T) -> bool)
    requires SortedBy(xs, le) && xs != []
    ensures SortedBy(xs[1..], le) && forall y | y in xs[1..] :: le(xs[0], y)
  {}

  lemma NotLe<T(!new)>(a: T, b: T, le: (T, T) -> bool)
    requires TotalPreorder(le) && !le(a, b)
    ensures le(b, a)
  {}

  lemma {:induction false} SortSorts<T(!new)>(xs: seq<T>, le: (T, T) -> bool)
    requires TotalPreorder(le)
    ensures SortedBy(Sort(xs, le), le)
    ensures multiset(Sort(xs, le)) == multiset(xs)
  {
    if xs != [] {
      SortSorts(xs[1..], le);
      InsertSorts(xs[0], Sort(xs[1..], le), le);
      assert xs == [xs[0]] + xs[1..];
    }
  }

  /** The elements that sort like x, in order. */
  function Alike<T>(xs: seq<T>, x: T, le: (T, T) -> bool): seq<T> {
    if xs == [] then []
    else (if le(x, xs[0]) && le(xs[0], x) then [xs[0]] else []) + Alike(xs[1..], x, le)
  }

  lemma {:induction false} InsertAlike<T(!new)>(y: T, xs: seq<T>, x: T, le: (T, T) -> bool)
    requires TotalPreorder(le)
    ensures Alike(Insert(y, xs, le), x, le) == Alike([y] + xs, x, le)
  {
    assert ([y] + xs)[1..] == xs;
    if xs != [] && !le(y, xs[0]) {
      InsertAlike(y, xs[1..], x, le);
      assert ([y] + xs[1..])[1..] == xs[1..];
      var rest := Insert(y, xs[1..], le);
      assert ([xs[0]] + rest)[1..] == rest;
    }
  }

  /** The sort is stable: elements with equal keys keep their order. */
  lemma {:induction false} SortStable<T(!new)>(xs: seq<T>, x: T, le: (T, T) -> bool)
    requires TotalPreorder(le)
    ensures Alike(Sort(xs, le), x, le) == Alike(xs, x, le)
  {
    if xs != [] {
      SortStable(xs[1..], x, le);
      InsertAlike(xs[0], Sort(xs[1..], le), x, le);
      var sorted := Sort(xs[1..], le);
      assert ([xs[0]] + sorted)[1..] == sorted;
    }
  }
}
