/** Searching, replacing and splitting text. */
module Texts {
  import opened Options

  predicate OccursAt(s: string, t: string, i: nat) {
    i + |t| <= |s| && s[i..i + |t|] == t
  }

  /** The first occurrence at or after position i. */
  function IndexFrom(s: string, t: string, i: nat): (r: Option<nat>)
    ensures r.Some? ==> i <= r.value && OccursAt(s, t, r.value)
    ensures forall j :: i <= j < (if r.Some? then r.value else |s| + 1) ==> !OccursAt(s, t, j)
    decreases |s| - i
  {
    if OccursAt(s, t, i) then Some(i)
    else if i >= |s| then None
    else IndexFrom(s, t, i + 1)
  }

  function Index(s: string, t: string): (r: Option<nat>)
    ensures r.Some? ==> OccursAt(s, t, r.value) && forall j :: 0 <= j < r.value ==> !OccursAt(s, t, j)
    ensures r.None? ==> forall j :: 0 <= j ==> !OccursAt(s, t, j)
  {
    IndexFrom(s, t, 0)
  }

  predicate Contains(s: string, t: string) {
    Index(s, t).Some?
  }

  lemma FirstIs(s: string, t: string, i: nat)
    requires OccursAt(s, t, i) && forall j :: 0 <= j < i ==> !OccursAt(s, t, j)
    ensures Index(s, t) == Some(i)
  {
  }

  /** The text with its first occurrence of t replaced by u. */
  function Replace(s: string, t: string, u: string): string {
    match Index(s, t)
    case None => s
    case Some(i) => s[..i] + u + s[i + |t|..]
  }

  /** The position of the first line end. */
  function LineEnd(s: string): (n: nat)
    ensures n <= |s|
    ensures n < |s| ==> s[n] == '\r' || s[n] == '\n'
    ensures forall i :: 0 <= i < n ==> s[i] != '\r' && s[i] != '\n'
  {
    if s == [] || s[0] == '\r' || s[0] == '\n' then 0 else 1 + LineEnd(s[1..])
  }

  /** The lines of a text, each with its newline. */
  function Lines(s: string): seq<string>
    decreases |s|
  {
    match Index(s, "\n")
    case None => [s]
    case Some(i) => [s[..i + 1]] + Lines(s[i + 1..])
  }

  function Join(lines: seq<string>): string {
    if lines == [] then "" else Join(lines[..|lines| - 1]) + lines[|lines| - 1]
  }

  lemma {:induction false} JoinFirst(line: string, lines: seq<string>)
    ensures Join([line] + lines) == line + Join(lines)
  {
    if lines == [] {
      assert [line] + lines == [line];
      assert [line][..0] == [];
    } else {
      var all := [line] + lines;
      assert all[..|all| - 1] == [line] + lines[..|lines| - 1];
      JoinFirst(line, lines[..|lines| - 1]);
    }
  }

  /** No text is lost between the lines. */
  lemma {:induction false} LinesJoin(s: string)
    ensures Join(Lines(s)) == s
    decreases |s|
  {
    match Index(s, "\n")
    case None =>
      assert [s][..0] == [];
    case Some(i) =>
      LinesJoin(s[i + 1..]);
      JoinFirst(s[..i + 1], Lines(s[i + 1..]));
  }

  function TrimLeft(s: string): (r: string)
    ensures |r| <= |s| && r == s[|s| - |r|..]
  {
    if s != [] && (s[0] == ' ' || s[0] == '\t') then TrimLeft(s[1..]) else s
  }

  function TrimLineEnd(s: string): (r: string)
    ensures r <= s
  {
    if s != [] && (s[|s| - 1] == '\r' || s[|s| - 1] == '\n') then TrimLineEnd(s[..|s| - 1]) else s
  }

  predicate NoLineEnd(s: string) {
    forall i :: 0 <= i < |s| ==> s[i] != '\r' && s[i] != '\n'
  }

  lemma {:induction false} LineEndAfter(d: string, rest: string)
    requires NoLineEnd(d)
    ensures LineEnd(d + "\n" + rest) == |d|
  {
    if d == "" {
      assert d + "\n" + rest == "\n" + rest;
    } else {
      assert (d + "\n" + rest)[1..] == d[1..] + "\n" + rest;
      LineEndAfter(d[1..], rest);
    }
  }

  /** The first line of a text, and the lines after it. */
  lemma LinesFirst(d: string, rest: string)
    requires NoLineEnd(d)
    ensures Lines(d + "\n" + rest) == [d + "\n"] + Lines(rest)
  {
    var s := d + "\n" + rest;
    assert OccursAt(s, "\n", |d|);
    forall j | 0 <= j < |d|
      ensures !OccursAt(s, "\n", j)
    {
      assert s[j..j + 1][0] == d[j];
    }
    FirstIs(s, "\n", |d|);
    assert s[..|d| + 1] == d + "\n" && s[|d| + 1..] == rest;
  }

  lemma LinesOfNothing()
    ensures Lines("") == [""]
  {
  }
}
