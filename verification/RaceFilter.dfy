/** The race filter: suppression rules for symbols and address ranges. */
module RaceFilter {
  import opened Wrappers
  import opened Wildcard
  import opened AddrIndex
  import opened Races

  /** The subject and the pattern of a line of the suppression file. */
  datatype Rule = Rule(subject: string, pattern: string)

  function IndexOf(s: string, c: char): (pos: Option<nat>)
    ensures pos.Some? ==> pos.value < |s| && s[pos.value] == c && c !in s[..pos.value]
    ensures pos.None? ==> c !in s
  {
    if s == "" then None
    else if s[0] == c then Some(0)
    else match IndexOf(s[1..], c) case None => None case Some(i) => Some(i + 1)
  }

  function ParseLine(line: string): Option<Rule> {
    if line != "" && line[0] == '#' then None
    else match IndexOf(line, ':') case None => None case Some(i) => Some(Rule(line[..i], line[i + 1..]))
  }

  /** The subjects whose patterns are rewritten. */
  predicate Subject(subject: string) {
    subject == "race" || subject == "race_tos"
  }

  predicate UsableLine(line: string) {
    var rule := ParseLine(line);
    rule.Some? && Subject(rule.value.subject) ==> rule.value.pattern !in ["", "^"]
  }

  /** No pattern to be rewritten is one that the rewriting reads past the end of. */
  predicate Usable(lines: seq<string>) {
    forall line | line in lines :: UsableLine(line)
  }

  /** The patterns for a subject, in file order. */
  function Patterns(lines: seq<string>, subject: string): seq<string> {
    if lines == [] then []
    else
      var rule := ParseLine(lines[|lines| - 1]);
      Patterns(lines[..|lines| - 1], subject) +
      if rule.Some? && rule.value.subject == subject then [rule.value.pattern] else []
  }

  function Normalized(patterns: seq<string>): seq<string>
    requires forall p | p in patterns :: p !in ["", "^"]
  {
    if patterns == [] then []
    else
      assert patterns[|patterns| - 1] in patterns;
      Normalized(patterns[..|patterns| - 1]) + [Rewrite(patterns[|patterns| - 1])]
  }

  lemma PatternsUsable(lines: seq<string>, subject: string)
    requires Usable(lines) && Subject(subject)
    ensures forall p | p in Patterns(lines, subject) :: p !in ["", "^"]
  {
    if lines != [] {
      assert UsableLine(lines[|lines| - 1]);
      PatternsUsable(lines[..|lines| - 1], subject);
    }
  }

  /** A pattern of the list matches one of the names as a whole. */
  ghost predicate AnyMatch(exprs: seq<string>, names: seq<string>) {
    exists e, n | e in exprs && n in names :: RegexMatch(e, n)
  }

  /** Every used stack entry has a name: what resolving establishes. */
  predicate Named(d: Decorated) {
    |d.FirstNames()| == d.race.first.stackSize && |d.SecondNames()| == d.race.second.stackSize
  }

  /** The tops of both stacks, if both have one. */
  function Tops(d: Decorated): seq<string>
    requires Named(d)
  {
    if d.race.first.stackSize == 0 || d.race.second.stackSize == 0 then []
    else [d.FirstNames()[d.race.first.stackSize - 1], d.SecondNames()[d.race.second.stackSize - 1]]
  }

  /** Some pattern, rewritten, matches one of the names. */
  ghost predicate Hits(patterns: seq<string>, names: seq<string>) {
    exists p, n | p in patterns && n in names :: p !in ["", "^"] && RegexMatch(Rewrite(p), n)
  }

  /** What the rules and ranges of a filter suppress, as it decides. */
  ghost predicate Suppresses(lines: seq<string>, ranges: seq<Range>, d: Decorated)
    requires Named(d)
  {
    || Suppressed(Index(ranges), d.race.first.memory)
    || Suppressed(Index(ranges), d.race.second.memory)
    || Hits(Patterns(lines, "race"), d.FirstNames() + d.SecondNames())
    || Hits(Patterns(lines, "race_tos"), Tops(d))
  }

  ghost predicate Found(patterns: seq<string>, names: seq<string>) {
    exists p, n | p in patterns && n in names :: Plain(p) && Occurs(p, n)
  }

  ghost predicate Understood(patterns: seq<string>) {
    forall p | p in patterns :: Plain(p) && Faithful(p)
  }

  lemma HitsAreFound(patterns: seq<string>, names: seq<string>)
    requires Understood(patterns)
    ensures Hits(patterns, names) <==> Found(patterns, names)
  {
    forall p | p in patterns ensures forall n :: RegexMatch(Rewrite(p), n) <==> Occurs(p, n)
    {
      NormalizationExact(p);
    }
  }

  /** The filter does what the suppression file says: with patterns it understands and
      ranges that do not shadow each other, a race is suppressed just when one of its
      addresses lies in a range, a `race` pattern occurs in a name on either stack, or a
      `race_tos` pattern occurs in the name on top of one. */
  lemma SuppressionMeaning(lines: seq<string>, ranges: seq<Range>, d: Decorated)
    requires Named(d) && AllTyped(ranges) && Shadowless(ranges)
    requires Understood(Patterns(lines, "race")) && Understood(Patterns(lines, "race_tos"))
    ensures Suppresses(lines, ranges, d) <==>
            || Scan(ranges, d.race.first.memory)
            || Scan(ranges, d.race.second.memory)
            || Found(Patterns(lines, "race"), d.FirstNames() + d.SecondNames())
            || Found(Patterns(lines, "race_tos"), Tops(d))
  {
    ScanExact(ranges);
    HitsAreFound(Patterns(lines, "race"), d.FirstNames() + d.SecondNames());
    HitsAreFound(Patterns(lines, "race_tos"), Tops(d));
  }

  /** The file has this line. */
  predicate Says(lines: seq<string>, subject: string, p: string) {
    subject + ":" + p in lines
  }

  /** A line is a subject with a pattern exactly if it is the two with a colon between. */
  lemma ParseExact(line: string, subject: string, p: string)
    requires ':' !in subject && (subject == "" || subject[0] != '#')
    ensures ParseLine(line) == Some(Rule(subject, p)) <==> line == subject + ":" + p
  {
    if line == subject + ":" + p {
      assert line[|subject|] == ':' && line[..|subject|] == subject && line[|subject| + 1..] == p;
      ColonFound(subject, p);
    }
    if ParseLine(line) == Some(Rule(subject, p)) {
      var i := IndexOf(line, ':').value;
      assert line == line[..i] + [line[i]] + line[i + 1..];
    }
  }

  lemma {:induction false} ColonFound(subject: string, p: string)
    requires ':' !in subject
    ensures IndexOf(subject + ":" + p, ':') == Some(|subject|)
  {
    if subject != "" {
      assert subject[0] in subject;
      assert (subject + ":" + p)[1..] == subject[1..] + ":" + p;
      ColonFound(subject[1..], p);
    }
  }

  lemma {:induction false} PatternsExact(lines: seq<string>, subject: string, p: string)
    requires ':' !in subject && (subject == "" || subject[0] != '#')
    ensures p in Patterns(lines, subject) <==> Says(lines, subject, p)
  {
    if lines != [] {
      hide ParseLine;
      var before, last := lines[..|lines| - 1], lines[|lines| - 1];
      PatternsExact(before, subject, p);
      ParseExact(last, subject, p);
      assert lines == before + [last];
      var rule := ParseLine(last);
      assert rule.Some? && rule.value.subject == subject && rule.value.pattern == p <==> rule == Some(Rule(subject, p));
    }
  }

  /** Every `race` and `race_tos` line of the file has a pattern that is understood. */
  ghost predicate AllUnderstood(lines: seq<string>) {
    forall p | Says(lines, "race", p) || Says(lines, "race_tos", p) :: Plain(p) && Faithful(p)
  }

  /** The same by the lines of the file and the names of the resolved race: a `race` pattern is
      looked for in every name of both stacks, a `race_tos` pattern in the last name of either,
      if both have one. */
  lemma FileMeaning(lines: seq<string>, ranges: seq<Range>, d: Decorated)
    requires d.resolved.Some? && Named(d) && AllTyped(ranges) && Shadowless(ranges) && AllUnderstood(lines)
    ensures var (first, second) := (d.resolved.value.first, d.resolved.value.second);
            Suppresses(lines, ranges, d) <==>
            || Scan(ranges, d.race.first.memory)
            || Scan(ranges, d.race.second.memory)
            || (exists p, n | Says(lines, "race", p) && (n in first || n in second) :: Occurs(p, n))
            || (first != [] && second != [] && exists p | Says(lines, "race_tos", p) ::
                  Occurs(p, first[|first| - 1]) || Occurs(p, second[|second| - 1]))
  {
    hide Occurs, Patterns, Plain, Faithful, Shadowless, Says, Suppresses, Scan;
    var (first, second) := (d.resolved.value.first, d.resolved.value.second);
    forall p ensures p in Patterns(lines, "race") <==> Says(lines, "race", p) {
      PatternsExact(lines, "race", p);
    }
    forall p ensures p in Patterns(lines, "race_tos") <==> Says(lines, "race_tos", p) {
      PatternsExact(lines, "race_tos", p);
    }
    SuppressionMeaning(lines, ranges, d);
    assert forall n :: n in first + second <==> n in first || n in second;
    assert Found(Patterns(lines, "race"), first + second) <==>
           exists p, n | Says(lines, "race", p) && (n in first || n in second) :: Occurs(p, n);
    TopsFound(Patterns(lines, "race_tos"), d);
    assert first != [] && second != [] ==>
        (Found(Patterns(lines, "race_tos"), Tops(d)) <==>
         exists p | Says(lines, "race_tos", p) :: Occurs(p, first[|first| - 1]) || Occurs(p, second[|second| - 1]));
  }

  lemma TopsFound(patterns: seq<string>, d: Decorated)
    requires d.resolved.Some? && Named(d) && Understood(patterns)
    ensures var (first, second) := (d.resolved.value.first, d.resolved.value.second);
            Found(patterns, Tops(d)) <==>
            first != [] && second != [] &&
            exists p | p in patterns :: Occurs(p, first[|first| - 1]) || Occurs(p, second[|second| - 1])
  {
    hide Occurs, Plain, Faithful;
    var (first, second) := (d.resolved.value.first, d.resolved.value.second);
    assert first != [] && second != [] ==> Tops(d)[0] == first[|first| - 1] && Tops(d)[1] == second[|second| - 1];
    assert forall n :: n in Tops(d) ==> n == Tops(d)[0] || n == Tops(d)[1];
  }

  lemma {:induction false} NormalizedMatch(patterns: seq<string>, names: seq<string>)
    requires forall p | p in patterns :: p !in ["", "^"]
    ensures AnyMatch(Normalized(patterns), names) <==> Hits(patterns, names)
  {
    if patterns != [] {
      var before, last := patterns[..|patterns| - 1], patterns[|patterns| - 1];
      assert patterns == before + [last];
      assert last in patterns && forall p :: p in patterns <==> p in before || p == last;
      NormalizedMatch(before, names);
      assert forall e :: e in Normalized(patterns) <==> e in Normalized(before) || e == Rewrite(last);
    }
  }

  lemma UsablePrefix(content: seq<string>, n: nat)
    requires Usable(content) && n <= |content|
    ensures Usable(content[..n])
  {
  }

  class RaceFilter {
    var rtosList: seq<string>
    var raceList: seq<string>
    var addrList: seq<Range>
    ghost var lines: seq<string>
    ghost var ranges: seq<Range>

    ghost predicate Valid()
      reads this
    {
      && Usable(lines)
      && (PatternsUsable(lines, "race_tos"); rtosList == Normalized(Patterns(lines, "race_tos")))
      && (PatternsUsable(lines, "race"); raceList == Normalized(Patterns(lines, "race")))
      && addrList == Index(ranges)
    }

    constructor (content: seq<string>)
      requires Usable(content)
      ensures Valid() && lines == content && ranges == []
    {
      rtosList, raceList, addrList := [], [], [];
      lines, ranges := [], [];
      new;
      assert Valid();
      hide Usable, Patterns, Normalized, Rewrite, Index;
      for i := 0 to |content|
        invariant Valid() && lines == content[..i] && ranges == []
      {
        assert content[..i] + [content[i]] == content[..i + 1];
        UsablePrefix(content, i + 1);
        Line(content[i]);
      }
      assert content[..|content|] == content;
    }

    /** One line of the file. */
    method Line(entry: string)
      requires Valid() && Usable(lines + [entry])
      modifies this
      ensures Valid() && lines == old(lines) + [entry] && ranges == old(ranges)
    {
      hide Patterns, Normalized, Rewrite, IndexOf;
      PatternsAppend(lines, entry, "race_tos");
      PatternsAppend(lines, entry, "race");
      assert entry in lines + [entry];
      lines := lines + [entry];
      if entry != "" && entry[0] == '#' {
        return;
      }
      var pos := Find(entry, ':', 0);
      FirstIsIndex(entry, ':', pos);
      if pos.Some? {
        if entry[..pos.value] == "race_tos" {
          var tmp := NormalizeString(entry[pos.value + 1..]);
          rtosList := rtosList + [tmp];
        }
        if entry[..pos.value] == "race" {
          var tmp := NormalizeString(entry[pos.value + 1..]);
          raceList := raceList + [tmp];
        }
      }
    }

    method SuppressAddr(addr: nat, size: nat)
      requires Valid()
      modifies `addrList, `ranges
      ensures Valid() && ranges == old(ranges) + [Range(addr, size)]
    {
      addrList := Emplace(addrList, Range(addr, size));
      ranges := ranges + [Range(addr, size)];
      assert ranges[..|ranges| - 1] == old(ranges);
    }

    /** `lower_bound` on the ordered map, then the comparison. */
    method AddrIsSuppressed(addr: nat) returns (yes: bool)
      ensures yes == Suppressed(addrList, addr)
    {
      var i := 0;
      while i < |addrList| && addrList[i].start > addr
        invariant i <= |addrList| && Suppressed(addrList, addr) == Suppressed(addrList[i..], addr)
      {
        i := i + 1;
      }
      if i == |addrList| {
        return false;
      }
      return addr < addrList[i].Limit();
    }

    method CheckRtos(d: Decorated) returns (yes: bool)
      requires Named(d)
      ensures yes <==> AnyMatch(rtosList, Tops(d))
    {
      if d.race.first.stackSize == 0 || d.race.second.stackSize == 0 {
        return false;
      }
      var top1, top2 := d.FirstNames()[|d.FirstNames()| - 1], d.SecondNames()[|d.SecondNames()| - 1];
      for i := 0 to |rtosList|
        invariant forall e | e in rtosList[..i] :: !RegexMatch(e, top1) && !RegexMatch(e, top2)
      {
        if RegexMatch(rtosList[i], top1) || RegexMatch(rtosList[i], top2) {
          assert top1 in Tops(d) && top2 in Tops(d);
          return true;
        }
      }
      return false;
    }

    method CheckRace(d: Decorated) returns (yes: bool)
      ensures yes <==>
              || Suppressed(addrList, d.race.first.memory)
              || Suppressed(addrList, d.race.second.memory)
              || AnyMatch(raceList, d.FirstNames() + d.SecondNames())
    {
      var a := AddrIsSuppressed(d.race.first.memory);
      var b := AddrIsSuppressed(d.race.second.memory);
      if a || b {
        return true;
      }
      ghost var all := d.FirstNames() + d.SecondNames();
      for i := 0 to |raceList|
        invariant forall e, n | e in raceList[..i] && n in all :: !RegexMatch(e, n)
      {
        var x := MatchesOne(raceList[i], d.FirstNames());
        var y := MatchesOne(raceList[i], d.SecondNames());
        if x || y {
          ghost var n :| n in all && RegexMatch(raceList[i], n);
          return true;
        }
      }
      return false;
    }

    method MatchesOne(expr: string, names: seq<string>) returns (yes: bool)
      ensures yes <==> exists n | n in names :: RegexMatch(expr, n)
    {
      for j := 0 to |names|
        invariant forall n | n in names[..j] :: !RegexMatch(expr, n)
      {
        if RegexMatch(expr, names[j]) {
          return true;
        }
      }
      return false;
    }

    method CheckSuppress(d: Decorated) returns (yes: bool)
      requires Valid() && Named(d)
      ensures yes <==> Suppresses(lines, ranges, d)
    {
      yes := CheckRace(d);
      if !yes {
        yes := CheckRtos(d);
      }
      PatternsUsable(lines, "race");
      PatternsUsable(lines, "race_tos");
      NormalizedMatch(Patterns(lines, "race"), d.FirstNames() + d.SecondNames());
      NormalizedMatch(Patterns(lines, "race_tos"), Tops(d));
    }
  }

  lemma FirstIsIndex(s: string, c: char, pos: Option<nat>)
    requires pos.Some? ==> pos.value < |s| && s[pos.value] == c && c !in s[0..pos.value]
    requires pos.None? ==> c !in s[0..]
    ensures pos == IndexOf(s, c)
  {
    assert s[0..] == s;
    assert forall k | 0 <= k < |s| :: s[k] in s;
    if pos.Some? && IndexOf(s, c).Some? {
      var i, j := pos.value, IndexOf(s, c).value;
      assert forall k | 0 <= k < i :: s[k] in s[0..i];
      assert forall k | 0 <= k < j :: s[k] in s[..j];
    }
  }

  lemma PatternsAppend(lines: seq<string>, entry: string, subject: string)
    requires Usable(lines + [entry]) && Subject(subject)
    ensures Usable(lines) && UsableLine(entry)
    ensures forall p | p in Patterns(lines + [entry], subject) + Patterns(lines, subject) :: p !in ["", "^"]
    ensures var rule := ParseLine(entry);
            Normalized(Patterns(lines + [entry], subject)) ==
            if rule.Some? && rule.value.subject == subject
            then Normalized(Patterns(lines, subject)) + [Rewrite(rule.value.pattern)]
            else Normalized(Patterns(lines, subject))
  {
    var after := lines + [entry];
    assert after[..|lines|] == lines && entry in after && forall line | line in lines :: line in after;
    PatternsUsable(after, subject);
    PatternsUsable(lines, subject);
    var rule := ParseLine(entry);
    var ps := Patterns(lines, subject);
    if rule.Some? && rule.value.subject == subject {
      assert (ps + [rule.value.pattern])[..|ps|] == ps;
    } else {
      assert Patterns(after, subject) == ps + [] == ps;
    }
  }
}
