/** Playlists as their authors mean them: segments one after another, each with a duration before its
    address, and what becomes of them when some are given another token. */
module Films {
  import opened Options
  import opened Texts

  /** Reads a number after trimming white space. */
  type Parser = string -> Option<real>

  /** A line of a playlist that is no address: a duration with a title, the offset, or something else.
      Blanks may stand before it. */
  datatype Tag =
    | Duration(blanks: string, seconds: string, title: string)
    | Offset(blanks: string, text: string)
    | Remark(blanks: string, text: string)

  /** A segment: the lines before its address, and the address, with the token in it or without one. */
  datatype Piece = Piece(tags: seq<Tag>, blanks: string, head: string, carries: bool, tail: string)

  function TagLine(t: Tag, eol: string): string {
    match t
    case Duration(blanks, seconds, title) => blanks + ("#EXTINF:" + (seconds + "," + title)) + eol
    case Offset(blanks, text) => blanks + ("#EXT-X-SESSION-OFFSET:" + text) + eol
    case Remark(blanks, text) => blanks + text + eol
  }

  function AddressLine(g: Piece, token: string, eol: string): string {
    if g.carries then g.blanks + g.head + "token=" + token + g.tail + eol else g.blanks + g.head + eol
  }

  predicate Blanks(s: string) {
    forall c <- s :: c == ' ' || c == '\t'
  }

  predicate PlainTag(t: Tag) {
    match t
    case Duration(blanks, seconds, title) => Blanks(blanks) && NoLineEnd(seconds) && NoLineEnd(title) && ',' !in seconds
    case Offset(blanks, text) => Blanks(blanks) && NoLineEnd(text)
    case Remark(blanks, text) =>
      && Blanks(blanks) && NoLineEnd(text) && (text == "" || text[0] == '#')
      && !("#EXTINF:" <= text) && !("#EXT-X-SESSION-OFFSET:" <= text)
  }

  /** An address: some text, not a comment. If it carries the token, the first place that has it is the
      one between head and tail. */
  ghost predicate PlainSegment(g: Piece, primary: string, eol: string) {
    var line, needle := AddressLine(g, primary, eol), "token=" + primary;
    && (forall t <- g.tags :: PlainTag(t))
    && Blanks(g.blanks) && g.head != "" && g.head[0] != '#' && g.head[0] != ' ' && g.head[0] != '\t'
    && NoLineEnd(g.head) && NoLineEnd(g.tail) && NoLineEnd(primary)
    && forall j :: 0 <= j < (if g.carries then |g.blanks| + |g.head| else |line| + 1) ==> !OccursAt(line, needle, j)
  }

  ghost predicate LastReadable(tags: seq<Tag>, i: nat, d: real, parse: Parser)
    requires i < |tags|
  {
    && tags[i].Duration? && parse(tags[i].seconds) == Some(d)
    && forall j :: i < j < |tags| && tags[j].Duration? ==> parse(tags[j].seconds) == None
  }

  /** The number in the last duration that can be read; 0 without one. */
  ghost predicate Lasts(tags: seq<Tag>, d: real, parse: Parser) {
    || (exists i :: 0 <= i < |tags| && LastReadable(tags, i, d, parse))
    || (d == 0.0 && forall j :: 0 <= j < |tags| && tags[j].Duration? ==> parse(tags[j].seconds) == None)
  }

  function Sum(ds: seq<real>): real {
    if ds == [] then 0.0 else ds[0] + Sum(ds[1..])
  }

  function TagsText(tags: seq<Tag>, eol: string): string {
    if tags == [] then "" else TagsText(tags[..|tags| - 1], eol) + TagLine(tags[|tags| - 1], eol)
  }

  function BodyText(gs: seq<Piece>, primary: string, eol: string): string {
    if gs == [] then "" else
    var g := gs[|gs| - 1];
    BodyText(gs[..|gs| - 1], primary, eol) + TagsText(g.tags, eol) + AddressLine(g, primary, eol)
  }

  /** The tags that are passed on: all but the offset. */
  function KeptText(tags: seq<Tag>, eol: string): string {
    if tags == [] then "" else
    var t := tags[|tags| - 1];
    KeptText(tags[..|tags| - 1], eol) + if t.Offset? then "" else TagLine(t, eol)
  }

  /** The playlist without offsets, and with the grace token in the segments chosen. */
  function SwappedText(gs: seq<Piece>, chosen: seq<bool>, primary: string, grace: string, eol: string): string
    requires |chosen| == |gs|
  {
    if gs == [] then "" else
    var n := |gs| - 1;
    SwappedText(gs[..n], chosen[..n], primary, grace, eol) + KeptText(gs[n].tags, eol)
      + AddressLine(gs[n], if chosen[n] then grace else primary, eol)
  }

  /** A playlist: its segments with their durations, and what comes after the last. */
  datatype Film = Film(segments: seq<Piece>, durations: seq<real>, rest: seq<Tag>, eol: string) {
    ghost predicate Shown(body: string, primary: string, parse: Parser) {
      && (eol == "\n" || eol == "\r\n") && |durations| == |segments|
      && body == BodyText(segments, primary, eol) + TagsText(rest, eol)
      && (forall g <- segments :: PlainSegment(g, primary, eol)) && (forall t <- rest :: PlainTag(t))
      && forall k :: 0 <= k < |segments| ==> Lasts(segments[k].tags, durations[k], parse)
    }

    /** The segments of some length that start before the end of the grace period: the offset and the
        sum of the durations before them. */
    function Early(offset: real, until: real): (chosen: seq<bool>)
      requires |durations| == |segments|
      ensures |chosen| == |segments|
      ensures forall k :: 0 <= k < |chosen| ==> chosen[k] == (durations[k] > 0.0 && offset + Sum(durations[..k]) < until)
    {
      seq(|segments|, k requires 0 <= k < |segments| => durations[k] > 0.0 && offset + Sum(durations[..k]) < until)
    }

    function NoneChosen(): (chosen: seq<bool>)
      ensures |chosen| == |segments|
    {
      seq(|segments|, _ => false)
    }

    function Swapped(chosen: seq<bool>, primary: string, grace: string): string
      requires |chosen| == |segments|
    {
      SwappedText(segments, chosen, primary, grace, eol) + KeptText(rest, eol)
    }
  }

  // ---------- the lines of such a playlist ----------

  function TagLines(tags: seq<Tag>, eol: string): seq<string> {
    if tags == [] then [] else TagLines(tags[..|tags| - 1], eol) + [TagLine(tags[|tags| - 1], eol)]
  }

  function SegmentLines(gs: seq<Piece>, primary: string, eol: string): seq<string> {
    if gs == [] then [] else
    var g := gs[|gs| - 1];
    SegmentLines(gs[..|gs| - 1], primary, eol) + TagLines(g.tags, eol) + [AddressLine(g, primary, eol)]
  }

  /** One line with its newline, and no other in it. */
  predicate IsLine(l: string) {
    l != "" && l[|l| - 1] == '\n' && forall i :: 0 <= i < |l| - 1 ==> l[i] != '\n'
  }

  lemma FirstLine(l: string, rest: string)
    requires IsLine(l)
    ensures Lines(l + rest) == [l] + Lines(rest)
  {
    var s := l + rest;
    assert OccursAt(s, "\n", |l| - 1);
    forall j | 0 <= j < |l| - 1
      ensures !OccursAt(s, "\n", j)
    {
      assert s[j..j + 1][0] == l[j];
    }
    FirstIs(s, "\n", |l| - 1);
    assert s[..|l|] == l && s[|l|..] == rest;
  }

  lemma {:induction false} LinesOfJoin(ls: seq<string>)
    requires forall l <- ls :: IsLine(l)
    ensures Lines(Join(ls)) == ls + [""]
  {
    hide Lines;
    if ls == [] {
      LinesOfNothing();
    } else {
      LinesOfJoin(ls[1..]);
      assert ls == [ls[0]] + ls[1..];
      JoinFirst(ls[0], ls[1..]);
      FirstLine(ls[0], Join(ls[1..]));
    }
  }

  lemma JoinLast(ls: seq<string>)
    requires ls != []
    ensures Join(ls) == Join(ls[..|ls| - 1]) + ls[|ls| - 1]
  {
  }

  lemma {:induction false} JoinBoth(a: seq<string>, b: seq<string>)
    ensures Join(a + b) == Join(a) + Join(b)
  {
    hide Join;
    if b == [] {
      assert a + b == a;
      JoinNone();
    } else {
      JoinBoth(a, b[..|b| - 1]);
      JoinLast(a + b);
      JoinLast(b);
      assert (a + b)[..|a + b| - 1] == a + b[..|b| - 1];
      assert Join(a) + (Join(b[..|b| - 1]) + b[|b| - 1]) == Join(a) + Join(b[..|b| - 1]) + b[|b| - 1];
    }
  }

  lemma JoinOne(l: string)
    ensures Join([l]) == l
  {
    assert [l][..0] == [];
  }

  lemma {:induction false} JoinTags(tags: seq<Tag>, eol: string)
    ensures Join(TagLines(tags, eol)) == TagsText(tags, eol)
  {
    if tags != [] {
      JoinTags(tags[..|tags| - 1], eol);
      assert TagLines(tags, eol)[..|tags| - 1] == TagLines(tags[..|tags| - 1], eol) by {
        TagLinesCount(tags[..|tags| - 1], eol);
      }
    }
  }

  lemma {:induction false} TagLinesCount(tags: seq<Tag>, eol: string)
    ensures |TagLines(tags, eol)| == |tags|
  {
    if tags != [] {
      TagLinesCount(tags[..|tags| - 1], eol);
    }
  }

  lemma {:induction false} JoinSegments(gs: seq<Piece>, primary: string, eol: string)
    ensures Join(SegmentLines(gs, primary, eol)) == BodyText(gs, primary, eol)
  {
    hide Join;
    if gs == [] {
      JoinNone();
    } else {
      var g, front := gs[|gs| - 1], SegmentLines(gs[..|gs| - 1], primary, eol);
      JoinSegments(gs[..|gs| - 1], primary, eol);
      JoinBoth(front + TagLines(g.tags, eol), [AddressLine(g, primary, eol)]);
      JoinBoth(front, TagLines(g.tags, eol));
      JoinTags(g.tags, eol);
      JoinOne(AddressLine(g, primary, eol));
    }
  }

  lemma JoinNone()
    ensures Join([]) == ""
  {
  }

  predicate IsEol(eol: string) {
    eol == "\n" || eol == "\r\n"
  }

  lemma EndsLine(core: string, eol: string)
    requires IsEol(eol) && NoLineEnd(core)
    ensures IsLine(core + eol)
  {
    var l := core + eol;
    assert l[|l| - 1] == '\n';
    forall i | 0 <= i < |l| - 1
      ensures l[i] != '\n'
    {
      if i < |core| {
        assert l[i] == core[i] && core[i] in core;
      }
    }
  }

  lemma NoEndInBoth(a: string, b: string)
    requires NoLineEnd(a) && NoLineEnd(b)
    ensures NoLineEnd(a + b)
  {
  }

  lemma BlanksNoEnd(s: string)
    requires Blanks(s)
    ensures NoLineEnd(s)
  {
    assert forall i :: 0 <= i < |s| ==> s[i] in s;
  }

  /** The core of a tag: what comes after the blanks. */
  function Core(t: Tag): string {
    match t
    case Duration(_, seconds, title) => "#EXTINF:" + (seconds + "," + title)
    case Offset(_, text) => "#EXT-X-SESSION-OFFSET:" + text
    case Remark(_, text) => text
  }

  lemma CoreNoEnd(t: Tag)
    requires PlainTag(t)
    ensures NoLineEnd(Core(t)) && NoLineEnd(t.blanks)
  {
    BlanksNoEnd(t.blanks);
    match t
    case Duration(_, seconds, title) =>
      NoEndInBoth(seconds, ",");
      NoEndInBoth(seconds + ",", title);
      NoEndInBoth("#EXTINF:", seconds + "," + title);
    case Offset(_, text) =>
      NoEndInBoth("#EXT-X-SESSION-OFFSET:", text);
    case Remark(_, text) =>
  }

  lemma TagIsLine(t: Tag, eol: string)
    requires PlainTag(t) && IsEol(eol)
    ensures IsLine(TagLine(t, eol))
  {
    CoreNoEnd(t);
    NoEndInBoth(t.blanks, Core(t));
    EndsLine(t.blanks + Core(t), eol);
  }

  lemma AddressNoEnd(g: Piece, primary: string, eol: string)
    requires PlainSegment(g, primary, eol)
    ensures var core := if g.carries then g.head + "token=" + primary + g.tail else g.head;
      NoLineEnd(core) && NoLineEnd(g.blanks) && AddressLine(g, primary, eol) == g.blanks + core + eol
  {
    hide OccursAt;
    BlanksNoEnd(g.blanks);
    if g.carries {
      NoEndInBoth(g.head, "token=");
      NoEndInBoth(g.head + "token=", primary);
      NoEndInBoth(g.head + "token=" + primary, g.tail);
      assert g.blanks + g.head + "token=" + primary + g.tail + eol == g.blanks + (g.head + "token=" + primary + g.tail) + eol;
    }
  }

  lemma AddressIsLine(g: Piece, primary: string, eol: string)
    requires PlainSegment(g, primary, eol) && IsEol(eol)
    ensures IsLine(AddressLine(g, primary, eol))
  {
    hide OccursAt;
    AddressNoEnd(g, primary, eol);
    var core := if g.carries then g.head + "token=" + primary + g.tail else g.head;
    NoEndInBoth(g.blanks, core);
    EndsLine(g.blanks + core, eol);
  }

  lemma {:induction false} TagsAreLines(tags: seq<Tag>, eol: string)
    requires IsEol(eol) && forall t <- tags :: PlainTag(t)
    ensures forall l <- TagLines(tags, eol) :: IsLine(l)
  {
    hide PlainTag, IsLine, TagLine;
    if tags != [] {
      TagsAreLines(tags[..|tags| - 1], eol);
      TagIsLine(tags[|tags| - 1], eol);
    }
  }

  lemma {:induction false} SegmentsAreLines(gs: seq<Piece>, primary: string, eol: string)
    requires IsEol(eol) && forall g <- gs :: PlainSegment(g, primary, eol)
    ensures forall l <- SegmentLines(gs, primary, eol) :: IsLine(l)
  {
    hide PlainSegment, IsLine, AddressLine;
    if gs != [] {
      var g := gs[|gs| - 1];
      SegmentsAreLines(gs[..|gs| - 1], primary, eol);
      TagsOfPlain(g, primary, eol);
      TagsAreLines(g.tags, eol);
      AddressIsLine(g, primary, eol);
    }
  }

  lemma TagsOfPlain(g: Piece, primary: string, eol: string)
    requires PlainSegment(g, primary, eol)
    ensures forall t <- g.tags :: PlainTag(t)
  {
    hide PlainTag, OccursAt;
  }

  /** The lines of the playlist as it is shown. */
  lemma LinesOfFilm(film: Film, body: string, primary: string, parse: Parser)
    requires film.Shown(body, primary, parse)
    ensures Lines(body) == SegmentLines(film.segments, primary, film.eol) + TagLines(film.rest, film.eol) + [""]
  {
    hide Lines, PlainSegment, PlainTag, Lasts, IsLine;
    var a, b := SegmentLines(film.segments, primary, film.eol), TagLines(film.rest, film.eol);
    JoinBoth(a, b);
    JoinSegments(film.segments, primary, film.eol);
    JoinTags(film.rest, film.eol);
    SegmentsAreLines(film.segments, primary, film.eol);
    TagsAreLines(film.rest, film.eol);
    LinesOfJoin(a + b);
  }
}
