/** The source snippets of a report: which part of a file is shown, when a snippet is reused,
    and the label of its first line. */
module SnippetCache {
  import opened Wrappers

  const LINES: nat := 400

  /** A snippet: the file, the line it was made for, and whether it is the whole file. */
  datatype Entry = Entry(path: string, line: int, whole: bool)

  /** The number of lines of every file that may be shown; the files do not change. */
  type Files = map<string, nat>

  datatype Request = Request(path: string, line: int)

  /** The lines begin + 1 .. end of a file. */
  datatype Window = Window(begin: int, end: int)

  predicate Shows(w: Window, line: int) {
    w.begin < line <= w.end
  }

  /** The part of a file of `total` lines that is shown for a line, None if the file is too
      short. */
  function GetLines(total: nat, line: int): Option<Window> {
    if total < line then None
    else if total > LINES then
      var begin := if line <= LINES / 2 then 0 else line - LINES / 2 - 1;
      Some(Window(begin, if begin + LINES < total then begin + LINES else total))
    else Some(Window(0, total))
  }

  function Source(files: Files, path: string, line: int): Option<Window> {
    if path in files then GetLines(files[path], line) else None
  }

  predicate Reusable(e: Entry, r: Request) {
    && e.path == r.path
    && (e.whole || r.line - LINES / 10 <= e.line <= r.line + LINES / 10)
  }

  /** The last entry that can be reused. */
  function LastReusable(list: seq<Entry>, r: Request): (i: Option<nat>)
    ensures i.Some? ==> i.value < |list| && Reusable(list[i.value], r)
    ensures i.None? ==> forall k :: 0 <= k < |list| ==> !Reusable(list[k], r)
  {
    if list == [] then None
    else if Reusable(list[|list| - 1], r) then Some(|list| - 1)
    else LastReusable(list[..|list| - 1], r)
  }

  function NewEntry(files: Files, r: Request): Entry
    requires r.path in files
  {
    Entry(r.path, r.line, files[r.path] <= LINES)
  }

  /** The list after a request, and the index of its snippet. */
  function Handle(files: Files, list: seq<Entry>, r: Request): (seq<Entry>, Option<nat>) {
    if Source(files, r.path, r.line).None? then (list, None)
    else
      match LastReusable(list, r)
      case Some(i) => (list, Some(i))
      case None => (list + [NewEntry(files, r)], Some(|list|))
  }

  function HandleAll(files: Files, requests: seq<Request>): seq<Entry> {
    if requests == [] then []
    else
      var n := |requests| - 1;
      Handle(files, HandleAll(files, requests[..n]), requests[n]).0
  }

  /** The answer to request j. */
  function Answer(files: Files, requests: seq<Request>, j: nat): Option<nat>
    requires j < |requests|
  {
    Handle(files, HandleAll(files, requests[..j]), requests[j]).1
  }

  /** The label of a snippet's first line. */
  function FirstLine(e: Entry): int {
    if e.whole then 1 else e.line - LINES / 2
  }

  // ---------------------------------------------------------------- properties

  /** Every entry is of a file that has its line, and no two entries could be shared: a small
      file has one entry, and entries of a large file are more than 40 lines apart. */
  predicate Inv(files: Files, list: seq<Entry>) {
    && (forall i :: 0 <= i < |list| ==> Fits(files, list[i]))
    && (forall i, j :: 0 <= i < j < |list| && list[i].path == list[j].path ==> Apart(list[i], list[j]))
  }

  predicate Fits(files: Files, e: Entry) {
    e.path in files && e.line <= files[e.path] && e.whole == (files[e.path] <= LINES)
  }

  predicate Apart(e: Entry, f: Entry) {
    !e.whole && !f.whole && (e.line + LINES / 10 < f.line || f.line + LINES / 10 < e.line)
  }

  /** The lines shown: all of a file of up to 400 lines; of a longer one the first 400, or from
      line 201 on those up to 200 before and less than 200 after. */
  lemma ShownExact(total: nat, line: int, k: int)
    ensures GetLines(total, line).Some? <==> line <= total
    ensures line <= total ==>
              (Shows(GetLines(total, line).value, k) <==>
               && 1 <= k <= total
               && (total <= 400 || if line <= 200 then k <= 400 else line - 200 <= k < line + 200))
  {
  }

  /** A request for a line that exists adds an entry for it if and only if no entry of the file
      is whole or at most 40 lines away; nothing else changes the list. */
  lemma AddsExact(files: Files, list: seq<Entry>, r: Request)
    ensures var there := r.path in files && r.line <= files[r.path];
            var near := exists e | e in list ::
                          e.path == r.path && (e.whole || (e.line - r.line <= 40 && r.line - e.line <= 40));
            Handle(files, list, r).0 ==
            if there && !near then list + [Entry(r.path, r.line, files[r.path] <= 400)] else list
  {
    var i := LastReusable(list, r);
    if i.Some? {
      assert list[i.value] in list;
    }
  }

  lemma HandleKeeps(files: Files, list: seq<Entry>, r: Request)
    requires Inv(files, list)
    ensures Inv(files, Handle(files, list, r).0)
    ensures list <= Handle(files, list, r).0
  {
    var list' := Handle(files, list, r).0;
    if list' != list {
      var e := NewEntry(files, r);
      forall i | 0 <= i < |list| && list[i].path == e.path ensures Apart(list[i], e) {
        assert !Reusable(list[i], r);
        assert Fits(files, list[i]);
      }
    }
  }

  lemma {:induction false} HandleAllKeeps(files: Files, requests: seq<Request>)
    ensures Inv(files, HandleAll(files, requests))
    decreases |requests|
  {
    if requests != [] {
      var n := |requests| - 1;
      HandleAllKeeps(files, requests[..n]);
      HandleKeeps(files, HandleAll(files, requests[..n]), requests[n]);
    }
  }

  lemma {:induction false} ListGrows(files: Files, requests: seq<Request>, j: nat)
    requires j <= |requests|
    ensures HandleAll(files, requests[..j]) <= HandleAll(files, requests)
    decreases |requests|
  {
    if j == |requests| {
      assert requests[..j] == requests;
    } else {
      var n := |requests| - 1;
      assert requests[..n][..j] == requests[..j];
      ListGrows(files, requests[..n], j);
      HandleAllKeeps(files, requests[..n]);
      HandleKeeps(files, HandleAll(files, requests[..n]), requests[n]);
    }
  }

  /** A reused snippet shows the requested line: 40 lines off stay inside a window of 400. */
  lemma ReuseShows(files: Files, e: Entry, r: Request)
    requires Fits(files, e) && Reusable(e, r) && 1 <= r.line && Source(files, r.path, r.line).Some?
    ensures Source(files, e.path, e.line).Some? && Shows(Source(files, e.path, e.line).value, r.line)
  {
  }

  lemma HandleShows(files: Files, list: seq<Entry>, r: Request)
    requires Inv(files, list) && 1 <= r.line
    ensures var (list', answer) := Handle(files, list, r);
            && (answer.Some? <==> r.path in files && r.line <= files[r.path])
            && (answer.Some? ==>
                  && answer.value < |list'|
                  && var e := list'[answer.value];
                     && e.path == r.path && Source(files, e.path, e.line).Some?
                     && Shows(Source(files, e.path, e.line).value, r.line))
  {
    HandleKeeps(files, list, r);
    var (list', answer) := Handle(files, list, r);
    if answer.Some? {
      ReuseShows(files, list'[answer.value], r);
    }
  }

  /** Whatever is requested in whatever order: a request for an existing line is answered, and
      in the finished report the snippet it was answered with shows the line. */
  lemma RequestsShown(files: Files, requests: seq<Request>, j: nat)
    requires j < |requests| && 1 <= requests[j].line
    ensures var list, r, answer := HandleAll(files, requests), requests[j], Answer(files, requests, j);
            && (answer.Some? <==> r.path in files && r.line <= files[r.path])
            && (answer.Some? ==>
                  && answer.value < |list|
                  && var e := list[answer.value];
                     && e.path == r.path && Source(files, e.path, e.line).Some?
                     && Shows(Source(files, e.path, e.line).value, r.line))
  {
    var before := HandleAll(files, requests[..j]);
    HandleAllKeeps(files, requests[..j]);
    HandleShows(files, before, requests[j]);
    assert requests[..j + 1][..j] == requests[..j];
    assert HandleAll(files, requests[..j + 1]) == Handle(files, before, requests[j]).0;
    ListGrows(files, requests, j + 1);
  }

  /** Entries are distinct, so the index of an entry by value is its position. */
  lemma EntriesDistinct(files: Files, list: seq<Entry>)
    requires Inv(files, list)
    ensures forall i, j :: 0 <= i < j < |list| ==> list[i] != list[j]
  {
    forall i, j | 0 <= i < j < |list| ensures list[i] != list[j] {
      assert list[i].path == list[j].path ==> Apart(list[i], list[j]);
    }
  }

  /** The label is the number of the first line shown if and only if the snippet is a whole
      file or was made for a line past 200; else it is that number less what the line lacks to 201. */
  lemma LabelExact(files: Files, e: Entry)
    requires Fits(files, e)
    ensures Source(files, e.path, e.line).Some?
    ensures FirstLine(e) == Source(files, e.path, e.line).value.begin + 1 <==> e.whole || e.line > LINES / 2
    ensures !e.whole && e.line <= 200 ==>
              FirstLine(e) == Source(files, e.path, e.line).value.begin + 1 - (201 - e.line)
  {
  }

  // ---------------------------------------------------------------- in place

  class SourceCodeManagement {
    const files: Files
    var list: seq<Entry>

    ghost predicate Valid()
      reads this
    {
      Inv(files, list)
    }

    constructor (files: Files)
      ensures Valid() && list == [] && this.files == files
    {
      this.files := files;
      list := [];
    }

    /** The first position of an equal entry. */
    method IndexOf(e: Entry) returns (i: nat)
      requires e in list
      ensures i < |list| && list[i] == e && forall k :: 0 <= k < i ==> list[k] != e
    {
      i := 0;
      while list[i] != e
        invariant i < |list| && forall k :: 0 <= k < i ==> list[k] != e
        decreases |list| - i
      {
        assert exists k :: i < k < |list| && list[k] == e;
        i := i + 1;
      }
    }

    method CreateEntry(r: Request) returns (index: nat)
      requires Valid() && r.path in files && r.line <= files[r.path] && LastReusable(list, r).None?
      modifies this
      ensures Valid() && list == old(list) + [NewEntry(files, r)] && index == |old(list)|
    {
      HandleKeeps(files, list, r);
      var e := NewEntry(files, r);
      list := list + [e];
      index := IndexOf(e);
      EntriesDistinct(files, list);
    }

    method HandleSourceCode(r: Request) returns (answer: Option<nat>)
      requires Valid()
      modifies this
      ensures Valid() && (list, answer) == Handle(files, old(list), r)
    {
      if Source(files, r.path, r.line).None? {
        return None;
      }
      answer := None;
      for i := 0 to |list|
        invariant list == old(list) && Valid()
        invariant answer == LastReusable(list[..i], r)
      {
        assert list[..i + 1][..i] == list[..i];
        if Reusable(list[i], r) {
          var index := IndexOf(list[i]);
          EntriesDistinct(files, list);
          answer := Some(index);
        }
      }
      assert list[..|list|] == list;
      if answer.None? {
        var index := CreateEntry(r);
        answer := Some(index);
      }
    }

    /** The variables of the report, by index: entry i gives variable i. */
    method CreateCodeVars() returns (vars: seq<(nat, Option<Window>)>)
      requires Valid()
      ensures |vars| == |list|
      ensures forall i :: 0 <= i < |list| ==>
                vars[i] == (i, Source(files, list[i].path, list[i].line)) && vars[i].1.Some?
    {
      vars := [];
      for i := 0 to |list|
        invariant |vars| == i
        invariant forall k :: 0 <= k < i ==>
                    vars[k] == (k, Source(files, list[k].path, list[k].line)) && vars[k].1.Some?
      {
        var index := IndexOf(list[i]);
        EntriesDistinct(files, list);
        assert Fits(files, list[i]);
        vars := vars + [(index, Source(files, list[i].path, list[i].line))];
      }
    }
  }
}
