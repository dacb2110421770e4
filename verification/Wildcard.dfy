/** Suppression patterns (plain characters, `.` for one character, `*` for any text, a
    leading `^` and a trailing `$` as anchors) and their rewriting into regular expressions. */
module Wildcard {
  import opened Wrappers

  // ------------------------------------------------- regular expressions, as far as used

  datatype Atom = AnyChar | Chr(c: char)
  /** An atom, possibly followed by the repetition operator. */
  datatype Item = One(a: Atom) | Many(a: Atom)

  predicate LineTerminator(c: char) {
    c == '\n' || c == '\r'
  }

  predicate Accepts(a: Atom, c: char) {
    match a
    case AnyChar => !LineTerminator(c)
    case Chr(d) => c == d
  }

  predicate Meta(c: char) {
    c in "^$\\()[]{}+?|"
  }

  /** The items of an expression; None outside the fragment or for a dangling `*`. */
  function Parse(expr: string): Option<seq<Item>>
    decreases |expr|
  {
    if expr == "" then Some([])
    else if Meta(expr[0]) || expr[0] == '*' then None
    else
      var a := if expr[0] == '.' then AnyChar else Chr(expr[0]);
      var starred := |expr| > 1 && expr[1] == '*';
      match Parse(expr[if starred then 2 else 1..])
      case None => None
      case Some(rest) => Some([if starred then Many(a) else One(a)] + rest)
  }

  /** The whole of s matches, as regex_match requires. */
  predicate Matches(items: seq<Item>, s: string)
    decreases |items| + |s|
  {
    if items == [] then s == ""
    else
      match items[0]
      case One(a) => s != "" && Accepts(a, s[0]) && Matches(items[1..], s[1..])
      case Many(a) => Matches(items[1..], s) || (s != "" && Accepts(a, s[0]) && Matches(items, s[1..]))
  }

  predicate RegexMatch(expr: string, s: string) {
    match Parse(expr)
    case None => false
    case Some(items) => Matches(items, s)
  }

  // ------------------------------------------------- patterns and their meaning

  function Anchored(p: string): bool {
    p != "" && p[0] == '^'
  }

  function EndAnchored(p: string): bool {
    p != "" && p[|p| - 1] == '$'
  }

  function Body(p: string): string
    requires p != "^"
  {
    p[if Anchored(p) then 1 else 0..if EndAnchored(p) then |p| - 1 else |p|]
  }

  predicate Plain(p: string) {
    p != "" && p != "^" && forall c | c in Body(p) :: !Meta(c)
  }

  function Token(c: char): Item {
    if c == '*' then Many(AnyChar) else if c == '.' then One(AnyChar) else One(Chr(c))
  }

  function Tokens(body: string): (ts: seq<Item>)
    ensures |ts| == |body|
  {
    seq(|body|, i requires 0 <= i < |body| => Token(body[i]))
  }

  predicate SingleLine(s: string) {
    forall c | c in s :: !LineTerminator(c)
  }

  /** The pattern occurs in s, from its beginning where `^` stands, up to its end where
      `$` stands, with nothing but text on one line before and behind. */
  ghost predicate Occurs(p: string, s: string)
    requires Plain(p)
  {
    exists i, j | 0 <= i <= j <= |s| ::
      && Matches(Tokens(Body(p)), s[i..j])
      && (if Anchored(p) then i == 0 else SingleLine(s[..i]))
      && (if EndAnchored(p) then j == |s| else SingleLine(s[j..]))
  }

  // ------------------------------------------------- the rewriting

  function InsertDots(p: string): string {
    if p == "" then "" else (if p[0] == '*' then ".*" else [p[0]]) + InsertDots(p[1..])
  }

  /** `pos` is the first position of c from `from` on. */
  predicate FoundAt(s: string, c: char, from: nat, pos: Option<nat>) {
    match pos
    case None => from <= |s| && c !in s[from..]
    case Some(i) => from <= i < |s| && s[i] == c && c !in s[from..i]
  }

  /** `find`: the first position of c from `from` on. */
  method Find(s: string, c: char, from: nat) returns (pos: Option<nat>)
    ensures from <= |s| ==> FoundAt(s, c, from, pos)
    ensures |s| < from ==> pos == None
  {
    var i := from;
    while i < |s|
      invariant from <= i && (i <= |s| ==> c !in s[from..i]) && (|s| < i ==> i == from)
    {
      if s[i] == c {
        return Some(i);
      }
      i := i + 1;
    }
    return None;
  }

  /** The second half of the rewriting: what stands for the anchors. */
  function Anchor(e: string): string
    requires e != "" && e != "^"
  {
    var e1 :=
      if e[0] != '^' then
        if e[0] != '.' && !(|e| > 1 && e[1] == '*') then ".*" + e else e
      else e[1..];
    if e1[|e1| - 1] != '$' then
      if e1[|e1| - 1] != '*' then e1 + ".*" else e1
    else e1[..|e1| - 1]
  }

  lemma InsertDotsAppend(a: string, b: string)
    ensures InsertDots(a + b) == InsertDots(a) + InsertDots(b)
  {
    if a == "" {
      assert a + b == b;
    } else {
      assert (a + b)[1..] == a[1..] + b;
      InsertDotsAppend(a[1..], b);
    }
  }

  lemma InsertDotsNone(a: string)
    requires '*' !in a
    ensures InsertDots(a) == a
  {
  }

  lemma StarStep(p: string, done: nat, next: nat)
    requires done <= next < |p| && p[next] == '*' && '*' !in p[done..next]
    ensures InsertDots(p[..next + 1]) == InsertDots(p[..done]) + p[done..next] + ".*"
  {
    assert p[..next + 1] == p[..done] + p[done..next] + "*";
    InsertDotsAppend(p[..done] + p[done..next], "*");
    InsertDotsAppend(p[..done], p[done..next]);
    InsertDotsNone(p[done..next]);
    assert InsertDots("*") == ".*" + InsertDots("");
  }

  /** One dot inserted before the star at `pos`, where `done` characters of p are done. */
  lemma DotInserted(p: string, done: nat, prefix: string, expr: string, pos: nat) returns (next: nat)
    requires done <= |p| && prefix == InsertDots(p[..done]) && expr == prefix + p[done..]
    requires FoundAt(expr, '*', |prefix|, Some(pos))
    ensures pos < |expr|
    ensures done <= next < |p|
    ensures expr[..pos] + "." + expr[pos..] == InsertDots(p[..next + 1]) + p[next + 1..]
    ensures |InsertDots(p[..next + 1])| == pos + 2
  {
    hide InsertDots;
    next := done + (pos - |prefix|);
    assert expr[|prefix|..pos] == p[done..next];
    assert expr[..pos] == prefix + p[done..next];
    assert expr[pos..] == "*" + p[next + 1..];
    StarStep(p, done, next);
  }

  /** The insertion loop. */
  method DotStars(p: string) returns (expr: string)
    ensures expr == InsertDots(p)
  {
    hide InsertDots, FoundAt;
    expr := p;
    var pos := Find(expr, '*', 0);
    ghost var done, prefix := 0, InsertDots(p[..0]);
    assert prefix == "" by { EmptyPrefix(p); }
    while pos.Some?
      invariant done <= |p| && prefix == InsertDots(p[..done]) && expr == prefix + p[done..]
      invariant FoundAt(expr, '*', |prefix|, pos)
      decreases |p| - done
    {
      ghost var next := DotInserted(p, done, prefix, expr, pos.value);
      expr := expr[..pos.value] + "." + expr[pos.value..];
      done, prefix := next + 1, InsertDots(p[..next + 1]);
      pos := Find(expr, '*', pos.value + 2);
    }
    NoMoreStars(p, done, prefix, expr);
  }

  lemma NoMoreStars(p: string, done: nat, prefix: string, expr: string)
    requires done <= |p| && prefix == InsertDots(p[..done]) && expr == prefix + p[done..]
    requires FoundAt(expr, '*', |prefix|, None)
    ensures expr == InsertDots(p)
  {
    hide InsertDots;
    assert expr[|prefix|..] == p[done..];
    InsertDotsNone(p[done..]);
    InsertDotsAppend(p[..done], p[done..]);
    assert p == p[..done] + p[done..];
  }

  lemma EmptyPrefix(p: string)
    ensures InsertDots(p[..0]) == ""
  {
  }

  lemma InsertDotsEnds(p: string)
    requires p != ""
    ensures var e := InsertDots(p);
            && e != "" && e[|e| - 1] == p[|p| - 1]
            && e[0] == (if p[0] == '*' then '.' else p[0])
            && (|e| > 1 && e[1] == '*' ==> e[0] == '.')
            && |p| <= |e|
  {
    if |p| > 1 {
      InsertDotsEnds(p[1..]);
    }
  }

  lemma InsertDotsProper(p: string)
    requires p != "" && p != "^"
    ensures InsertDots(p) != "" && InsertDots(p) != "^"
  {
    InsertDotsEnds(p);
    assert |p| == 1 ==> p == [p[0]];
  }

  /** The rewritten pattern. */
  function Rewrite(p: string): string
    requires p != "" && p != "^"
  {
    InsertDotsProper(p);
    Anchor(InsertDots(p))
  }

  /** The rewriting, in place on the string. For "" and "^" the C++ code reads past the
      end of the string. */
  method NormalizeString(p: string) returns (expr: string)
    requires p != "" && p != "^"
    ensures expr == Rewrite(p)
  {
    InsertDotsProper(p);
    expr := DotStars(p);
    if expr[0] != '^' {
      if expr[0] != '.' && !(|expr| > 1 && expr[1] == '*') {
        expr := ".*" + expr;
      }
    } else {
      expr := expr[1..];
    }
    if expr[|expr| - 1] != '$' {
      if expr[|expr| - 1] != '*' {
        expr := expr + ".*";
      }
    } else {
      expr := expr[..|expr| - 1];
    }
  }

  // ------------------------------------------------- the rewriting keeps the meaning

  const STAR: Item := Many(AnyChar)

  /** The wildcards that the rewriting puts at the ends. */
  function Lead(p: string): string
    requires Plain(p)
  {
    if Anchored(p) || p[0] == '.' || p[0] == '*' then "" else "*"
  }

  function Trail(p: string): string
    requires Plain(p)
  {
    if EndAnchored(p) || p[|p| - 1] == '*' then "" else "*"
  }

  /** The first half of Anchor on a pattern with dots inserted. */
  lemma LeadInserted(p: string)
    requires Plain(p)
    ensures var e, p1 := InsertDots(p), if Anchored(p) then p[1..] else p;
            && e != "" && e != "^" && p1 != ""
            && InsertDots(Lead(p) + p1) ==
               (if e[0] != '^' then
                  if e[0] != '.' && !(|e| > 1 && e[1] == '*') then ".*" + e else e
                else e[1..])
  {
    InsertDotsEnds(p);
    hide InsertDots;
    if Anchored(p) {
      var rest := p[1..];
      assert p == "^" + rest && "" + rest == rest;
      InsertDotsAppend("^", rest);
      InsertDotsNone("^");
      assert ("^" + InsertDots(rest))[1..] == InsertDots(rest);
    } else {
      InsertDotsAppend(Lead(p), p);
      InsertDotsNone("");
      OneStar();
      assert "" + InsertDots(p) == InsertDots(p);
    }
  }

  /** Inserting dots and replacing the anchors is inserting dots into the pattern with
      wildcards in place of the absent anchors. */
  lemma AnchorIsWildcards(p: string)
    requires Plain(p)
    ensures Rewrite(p) == InsertDots(Lead(p) + Body(p) + Trail(p))
  {
    LeadInserted(p);
    var q := Lead(p) + if Anchored(p) then p[1..] else p;
    TrailInserted(p, q);
  }

  lemma TrailInserted(p: string, q: string)
    requires Plain(p) && q == Lead(p) + (if Anchored(p) then p[1..] else p)
    ensures var e := InsertDots(q);
            && e != ""
            && InsertDots(Lead(p) + Body(p) + Trail(p)) ==
               (if e[|e| - 1] != '$' then
                  if e[|e| - 1] != '*' then e + ".*" else e
                else e[..|e| - 1])
  {
    assert q[|q| - 1] == p[|p| - 1];
    InsertDotsEnds(q);
    hide InsertDots, Lead;
    var b := Lead(p) + Body(p);
    if EndAnchored(p) {
      assert q == b + "$" && b + "" == b;
      InsertDotsAppend(b, "$");
      InsertDotsNone("$");
      assert (InsertDots(b) + "$")[..|InsertDots(b)|] == InsertDots(b);
    } else {
      assert q == b && q + "" == q;
      InsertDotsAppend(q, Trail(p));
      OneStar();
    }
  }

  lemma OneStar()
    ensures InsertDots("*") == ".*"
  {
    assert InsertDots("*") == ".*" + InsertDots("");
  }

  lemma ParseTokens(b: string)
    requires forall c | c in b :: !Meta(c)
    ensures Parse(InsertDots(b)) == Some(Tokens(b))
  {
    if b == "" {
    } else {
      ParseTokens(b[1..]);
      var e, rest := InsertDots(b), InsertDots(b[1..]);
      assert Tokens(b) == [Token(b[0])] + Tokens(b[1..]);
      if b[0] == '*' {
        assert e == ".*" + rest && e[2..] == rest;
      } else {
        assert e == [b[0]] + rest && e[1..] == rest;
        if |b| > 1 {
          InsertDotsEnds(b[1..]);
        }
      }
    }
  }

  ghost predicate Splits(a: seq<Item>, b: seq<Item>, s: string) {
    exists k | 0 <= k <= |s| :: Matches(a, s[..k]) && Matches(b, s[k..])
  }

  lemma {:induction false} MatchesJoin(a: seq<Item>, b: seq<Item>, s: string, k: nat)
    requires k <= |s| && Matches(a, s[..k]) && Matches(b, s[k..])
    ensures Matches(a + b, s)
    decreases |a| + |s|
  {
    if a == [] {
      assert a + b == b && s[k..] == s;
    } else {
      assert (a + b)[1..] == a[1..] + b;
      if a[0].Many? && Matches(a[1..], s[..k]) {
        MatchesJoin(a[1..], b, s, k);
      } else {
        assert s[..k][1..] == s[1..][..k - 1] && s[1..][k - 1..] == s[k..];
        MatchesJoin(if a[0].Many? then a else a[1..], b, s[1..], k - 1);
      }
    }
  }

  lemma {:induction false} MatchesSplit(a: seq<Item>, b: seq<Item>, s: string) returns (k: nat)
    requires Matches(a + b, s)
    ensures k <= |s| && Matches(a, s[..k]) && Matches(b, s[k..])
    decreases |a| + |s|
  {
    if a == [] {
      assert a + b == b && s[0..] == s;
      k := 0;
    } else {
      assert (a + b)[1..] == a[1..] + b;
      if a[0].Many? && Matches((a + b)[1..], s) {
        k := MatchesSplit(a[1..], b, s);
      } else {
        k := MatchesSplit(if a[0].Many? then a else a[1..], b, s[1..]);
        k := k + 1;
        assert s[..k][1..] == s[1..][..k - 1] && s[1..][k - 1..] == s[k..];
      }
    }
  }

  lemma MatchesConcat(a: seq<Item>, b: seq<Item>, s: string)
    ensures Matches(a + b, s) <==> Splits(a, b, s)
  {
    if Matches(a + b, s) {
      var k := MatchesSplit(a, b, s);
    }
    if Splits(a, b, s) {
      var k :| 0 <= k <= |s| && Matches(a, s[..k]) && Matches(b, s[k..]);
      MatchesJoin(a, b, s, k);
    }
  }

  lemma StarMatches(s: string)
    ensures Matches([STAR], s) <==> SingleLine(s)
  {
    assert [STAR][1..] == [];
    if s != "" {
      StarMatches(s[1..]);
      assert s == [s[0]] + s[1..];
    }
  }

  /** Some text on one line, then a match. */
  ghost predicate AfterGap(items: seq<Item>, s: string) {
    exists i | 0 <= i <= |s| :: SingleLine(s[..i]) && Matches(items, s[i..])
  }

  lemma GapIsStar(items: seq<Item>, s: string)
    ensures AfterGap(items, s) <==> Matches([STAR] + items, s)
  {
    MatchesConcat([STAR], items, s);
    forall i | 0 <= i <= |s| ensures Matches([STAR], s[..i]) <==> SingleLine(s[..i]) {
      StarMatches(s[..i]);
    }
  }

  /** The items of a pattern, with a wildcard in place of an absent end anchor. */
  function EndItems(p: string): seq<Item>
    requires Plain(p)
  {
    Tokens(Body(p)) + if EndAnchored(p) then [] else [STAR]
  }

  lemma OccursByItems(p: string, s: string)
    requires Plain(p)
    ensures Occurs(p, s) <==> if Anchored(p) then Matches(EndItems(p), s) else AfterGap(EndItems(p), s)
  {
    var b := Tokens(Body(p));
    forall i | 0 <= i <= |s|
      ensures Matches(EndItems(p), s[i..]) <==>
              exists j | i <= j <= |s| :: Matches(b, s[i..j]) && if EndAnchored(p) then j == |s| else SingleLine(s[j..])
    {
      OccursFrom(p, s, i);
    }
    assert s[0..] == s;
  }

  lemma OccursFrom(p: string, s: string, i: nat)
    requires Plain(p) && i <= |s|
    ensures Matches(EndItems(p), s[i..]) <==>
            exists j | i <= j <= |s| ::
              Matches(Tokens(Body(p)), s[i..j]) && if EndAnchored(p) then j == |s| else SingleLine(s[j..])
  {
    var b, t := Tokens(Body(p)), s[i..];
    if EndAnchored(p) {
      assert b + [] == b && s[i..|s|] == t;
    } else {
      MatchesConcat(b, [STAR], t);
      forall k | 0 <= k <= |t| ensures t[..k] == s[i..i + k] && t[k..] == s[i + k..] {
        StarMatches(t[k..]);
      }
      if k :| 0 <= k <= |t| && Matches(b, t[..k]) && Matches([STAR], t[k..]) {
        StarMatches(t[k..]);
        assert s[i..i + k] == t[..k] && s[i + k..] == t[k..];
      }
      if j :| i <= j <= |s| && Matches(b, s[i..j]) && SingleLine(s[j..]) {
        var k := j - i;
        StarMatches(t[k..]);
        assert s[i..j] == t[..k] && s[j..] == t[k..];
      }
    }
  }

  /** A final wildcard makes one more redundant. */
  lemma EndStarAbsorbs(items: seq<Item>, s: string)
    requires items != [] && items[|items| - 1] == STAR
    ensures Matches(items + [STAR], s) <==> Matches(items, s)
  {
    var a := items[..|items| - 1];
    assert items == a + [STAR];
    assert items + [STAR] == a + ([STAR] + [STAR]);
    MatchesConcat(a, [STAR], s);
    MatchesConcat(a, [STAR] + [STAR], s);
    forall k | 0 <= k <= |s| ensures Matches([STAR] + [STAR], s[k..]) <==> Matches([STAR], s[k..]) {
      AbsorbsGap([STAR], s[k..]);
      GapIsStar([STAR], s[k..]);
    }
  }

  /** Items that match whatever text they match with more text in front of it. */
  predicate Loose(items: seq<Item>) {
    items != [] && (items[0] == STAR || (items[0] == One(AnyChar) && Loose(items[1..])))
  }

  lemma AbsorbsGap(items: seq<Item>, s: string)
    requires Loose(items)
    ensures AfterGap(items, s) <==> Matches(items, s)
  {
    if Matches(items, s) {
      assert s[0..] == s;
    }
    if AfterGap(items, s) {
      var i :| 0 <= i <= |s| && SingleLine(s[..i]) && Matches(items, s[i..]);
      GapGrows(items, s, i);
    }
  }

  lemma {:induction false} GapGrows(items: seq<Item>, s: string, i: nat)
    requires Loose(items) && i <= |s| && SingleLine(s[..i]) && Matches(items, s[i..])
    ensures Matches(items, s)
    decreases |items| + |s|
  {
    if i == 0 {
      assert s[0..] == s;
    } else {
      assert s[0] in s[..i];
      if items[0] == STAR {
        assert s[1..][i - 1..] == s[i..];
        assert forall c | c in s[1..][..i - 1] :: c in s[..i];
        GapGrows(items, s[1..], i - 1);
      } else {
        assert s[i..][1..] == s[1..][i..];
        assert forall c | c in s[1..][..i] :: c in s[..i] || c == s[i];
        GapGrows(items[1..], s[1..], i);
      }
    }
  }

  /** Items that begin, behind any single-character wildcards, with a character or end. */
  lemma {:induction false} TightCounterexample(items: seq<Item>, x: char) returns (w: string)
    requires !Loose(items) && !LineTerminator(x)
    requires forall i | 0 <= i < |items| :: items[i] in [STAR, One(AnyChar)] || items[i].One?
    requires FirstLiteral(items) != One(Chr(x))
    ensures Matches(items, w) && !Matches(items, [x] + w)
  {
    if items == [] {
      w := "";
    } else if items[0] == One(AnyChar) {
      w := TightCounterexample(items[1..], x);
      assert ([x] + ([x] + w))[1..] == [x] + w && ([x] + w)[1..] == w;
      w := [x] + w;
    } else {
      w := Example(items[1..]);
      var c := items[0].a.c;
      assert ([c] + w)[1..] == w;
      w := [c] + w;
    }
  }

  function FirstLiteral(items: seq<Item>): Item {
    if items == [] then STAR else if items[0] == One(AnyChar) then FirstLiteral(items[1..]) else items[0]
  }

  lemma {:induction false} Example(items: seq<Item>) returns (w: string)
    requires forall i | 0 <= i < |items| :: items[i] in [STAR, One(AnyChar)] || items[i].One?
    ensures Matches(items, w)
  {
    if items == [] {
      w := "";
    } else {
      w := Example(items[1..]);
      if items[0].One? {
        var c := if items[0].a.Chr? then items[0].a.c else 'a';
        assert ([c] + w)[1..] == w;
        w := [c] + w;
      }
    }
  }

  /** A pattern that does not begin with `^` but with single-character wildcards goes on
      with `*` or ends (without `$`). */
  predicate LooseStart(p: string) {
    p == "" || p[0] == '*' || (p[0] == '.' && LooseStart(p[1..]))
  }

  /** When the rewriting is right: the test for an existing wildcard at the beginning takes
      a lone `.` for one, and then puts none in front. */
  predicate Faithful(p: string)
    requires p != ""
  {
    p[0] != '.' || LooseStart(p)
  }

  lemma {:induction false} LooseItems(p: string)
    requires p != "" ==> p[0] != '^'
    requires p != "" && forall c | c in Body(p) :: !Meta(c)
    ensures LooseStart(p) <==> Loose(EndItems(p))
    decreases |p|
  {
    var b := Body(p);
    if p == "$" {
      assert Tokens(b) == [] && EndItems(p) == [];
    } else {
      assert b[0] == p[0];
      assert EndItems(p)[0] == Token(p[0]);
      if p[0] == '.' {
        if |p| == 1 {
          assert EndItems(p)[1..] == [STAR];
        } else {
          assert |b| > 1 ==> b[1] in b && b[1] == p[1];
          var q := p[1..];
          assert Body(q) == b[1..];
          assert Tokens(b)[1..] == Tokens(b[1..]);
          assert EndItems(p)[1..] == EndItems(q);
          LooseItems(q);
        }
      }
    }
  }

  lemma RegexByItems(p: string, s: string)
    requires Plain(p)
    ensures RegexMatch(Rewrite(p), s) <==> Matches(Tokens(Lead(p)) + EndItems(p), s)
  {
    AnchorIsWildcards(p);
    ParseTokens(Lead(p) + Body(p) + Trail(p));
    TrailingItems(p, s);
  }

  lemma TrailingItems(p: string, s: string)
    requires Plain(p)
    ensures Matches(Tokens(Lead(p) + Body(p) + Trail(p)), s) <==> Matches(Tokens(Lead(p)) + EndItems(p), s)
  {
    hide Matches;
    var items := Tokens(Lead(p)) + Tokens(Body(p));
    assert Tokens(Lead(p) + Body(p) + Trail(p)) == items + Tokens(Trail(p));
    if EndAnchored(p) {
      assert Tokens(Lead(p)) + EndItems(p) == items == items + [];
    } else {
      assert Tokens(Lead(p)) + EndItems(p) == items + [STAR];
      if Trail(p) == "" {
        assert Body(p) != "" && items[|items| - 1] == Token('*') && items + [] == items;
        EndStarAbsorbs(items, s);
      } else {
        assert Tokens("*") == [STAR];
      }
    }
  }

  /** For patterns of plain characters and wildcards: matching the rewritten expression
      against a whole symbol is finding the pattern in it, anchored just where `^` or `$`
      stood, for every symbol, if and only if the pattern is Faithful. */
  lemma NormalizationExact(p: string)
    requires Plain(p)
    ensures Faithful(p) <==> forall s :: RegexMatch(Rewrite(p), s) <==> Occurs(p, s)
  {
    InsertDotsEnds(p);
    if Faithful(p) {
      forall s ensures RegexMatch(Rewrite(p), s) <==> Occurs(p, s) {
        FaithfulHere(p, s);
      }
    } else {
      LooseItems(p);
      var items := EndItems(p);
      var x := if FirstLiteral(items) == One(Chr('a')) then 'b' else 'a';
      var w := TightCounterexample(items, x);
      var s := [x] + w;
      assert s[..1] == [x] && s[1..] == w;
      assert AfterGap(items, s);
      OccursByItems(p, s);
      RegexByItems(p, s);
      assert Tokens(Lead(p)) + items == items;
      assert Occurs(p, s) && !RegexMatch(Rewrite(p), s);
    }
  }

  lemma FaithfulHere(p: string, s: string)
    requires Plain(p) && Faithful(p)
    ensures RegexMatch(Rewrite(p), s) <==> Occurs(p, s)
  {
    var items := EndItems(p);
    RegexByItems(p, s);
    OccursByItems(p, s);
    if Lead(p) == "" {
      assert Tokens(Lead(p)) + items == items;
      if !Anchored(p) {
        LooseItems(p);
        AbsorbsGap(items, s);
      }
    } else {
      assert Tokens(Lead(p)) == [STAR];
      GapIsStar(items, s);
    }
  }
  /** What one character of a pattern stands for. */
  predicate Piece(c: char, t: string) {
    if c == '*' then forall x | x in t :: x != '\n' && x != '\r'
    else if c == '.' then |t| == 1 && t[0] != '\n' && t[0] != '\r'
    else t == [c]
  }

  /** The text is in pieces for the characters of the pattern, in order. */
  ghost predicate InPieces(body: string, s: string) {
    if body == "" then s == ""
    else exists k | 0 <= k <= |s| :: Piece(body[0], s[..k]) && InPieces(body[1..], s[k..])
  }

  lemma PieceExact(c: char, t: string)
    ensures Matches([Token(c)], t) <==> Piece(c, t)
  {
    if c == '*' {
      StarMatches(t);
    } else {
      assert t != "" && t[1..] == "" ==> t == [t[0]];
    }
  }

  /** A pattern without anchors matches just the texts in pieces for it. */
  lemma {:induction false} PiecesExact(body: string, s: string)
    ensures Matches(Tokens(body), s) <==> InPieces(body, s)
    decreases |body|
  {
    if body != "" {
      hide Matches, Piece;
      assert Tokens(body) == [Token(body[0])] + Tokens(body[1..]);
      MatchesConcat([Token(body[0])], Tokens(body[1..]), s);
      forall k | 0 <= k <= |s|
        ensures Matches([Token(body[0])], s[..k]) && Matches(Tokens(body[1..]), s[k..]) <==>
                Piece(body[0], s[..k]) && InPieces(body[1..], s[k..])
      {
        PieceExact(body[0], s[..k]);
        PiecesExact(body[1..], s[k..]);
      }
    }
  }

  /** The meaning by the characters alone: the rewritten expression of a pattern that the rewriting
      is right for matches a symbol if and only if some part of it is in pieces for the pattern,
      with text on one line before it unless `^` stood, and behind it unless `$` did. */
  lemma PatternMeaning(p: string, s: string)
    requires Plain(p) && Faithful(p)
    ensures var first, last := p[0] == '^', p[|p| - 1] == '$';
            var body := p[if first then 1 else 0..if last then |p| - 1 else |p|];
            RegexMatch(Rewrite(p), s) <==>
            exists i, j | 0 <= i <= j <= |s| ::
              && InPieces(body, s[i..j])
              && (if first then i == 0 else Piece('*', s[..i]))
              && (if last then j == |s| else Piece('*', s[j..]))
  {
    hide Matches, RegexMatch, Rewrite, InPieces;
    FaithfulHere(p, s);
    forall i, j | 0 <= i <= j <= |s|
      ensures Matches(Tokens(Body(p)), s[i..j]) <==> InPieces(Body(p), s[i..j])
    {
      PiecesExact(Body(p), s[i..j]);
    }
  }
}
