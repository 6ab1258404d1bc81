/** Grace tokens in HLS playlists: the transcoder says in a tag where a playlist starts, and the
    proxy gives the segments that start within the grace period another token. Playlists are
    sequences of characters, one for each byte. */
module Manifest {
  import opened Films
  import opened Options
  import opened Texts

  const OFFSET_TAG := "#EXT-X-SESSION-OFFSET:"
  const EXTINF_TAG := "#EXTINF:"

  datatype Line = OffsetLine | Extinf(duration: Option<real>) | Other | Segment

  /** The text after the EXTINF tag, up to a comma. */
  function DurationText(rest: string): string {
    match Index(rest, ",")
    case None => rest
    case Some(i) => rest[..i]
  }

  predicate IsOffset(stripped: string) {
    OFFSET_TAG <= stripped
  }

  predicate IsExtinf(stripped: string) {
    EXTINF_TAG <= stripped
  }

  function ParseExtinf(stripped: string, parse: Parser): Option<real>
    requires IsExtinf(stripped)
  {
    parse(DurationText(stripped[|EXTINF_TAG|..]))
  }

  function Classify(raw: string, parse: Parser): Line {
    var stripped := TrimLeft(TrimLineEnd(raw));
    if IsOffset(stripped) then OffsetLine
    else if IsExtinf(stripped) then Extinf(ParseExtinf(stripped, parse))
    else if stripped == "" || stripped[0] == '#' then Other
    else Segment
  }

  /** The seconds in the first offset tag, 0 without one. */
  function ParseSessionOffset(body: string, parse: Parser): real {
    match Index(body, OFFSET_TAG)
    case None => 0.0
    case Some(i) =>
      var rest := body[i + |OFFSET_TAG|..];
      match parse(rest[..LineEnd(rest)])
      case None => 0.0
      case Some(v) => v
  }

  function SwapToken(line: string, primary: string, grace: string): string {
    if primary == "" then line else Replace(line, "token=" + primary, "token=" + grace)
  }

  // ---------- what the rewriting is meant to be ----------

  /** The duration announced for what follows the first i lines. */
  function Announced(lines: seq<string>, i: nat, parse: Parser): real
    requires i <= |lines|
  {
    if i == 0 then 0.0 else
    match Classify(lines[i - 1], parse)
    case Segment => 0.0
    case Extinf(Some(d)) => d
    case _ => Announced(lines, i - 1, parse)
  }

  /** Where what follows the first i lines starts: the offset and the durations of the segments before. */
  function StartTime(lines: seq<string>, i: nat, offset: real, parse: Parser): real
    requires i <= |lines|
  {
    if i == 0 then offset else
    StartTime(lines, i - 1, offset, parse)
      + if Classify(lines[i - 1], parse).Segment? then Announced(lines, i - 1, parse) else 0.0
  }

  /** A segment of some length that starts before the end of the grace period. */
  predicate Qualifies(lines: seq<string>, i: nat, offset: real, until: real, parse: Parser)
    requires i < |lines|
  {
    && Classify(lines[i], parse).Segment?
    && Announced(lines, i, parse) > 0.0
    && StartTime(lines, i, offset, parse) < until
  }

  function NewLine(lines: seq<string>, i: nat, offset: real, until: real, primary: string, grace: string, parse: Parser): string
    requires i < |lines|
  {
    if Classify(lines[i], parse).OffsetLine? then ""
    else if Qualifies(lines, i, offset, until, parse) then SwapToken(lines[i], primary, grace)
    else lines[i]
  }

  /** The first n lines of the new playlist. */
  function NewLines(lines: seq<string>, n: nat, offset: real, until: real, primary: string, grace: string, parse: Parser): string
    requires n <= |lines|
  {
    if n == 0 then "" else
    NewLines(lines, n - 1, offset, until, primary, grace, parse)
      + NewLine(lines, n - 1, offset, until, primary, grace, parse)
  }

  /** The first n lines without offset tags. */
  function Stripped(lines: seq<string>, n: nat): string
    requires n <= |lines|
  {
    if n == 0 then "" else
    Stripped(lines, n - 1) + if IsOffset(TrimLeft(lines[n - 1])) then "" else lines[n - 1]
  }

  // ---------- the loops ----------

  method StripSessionOffsetLine(body: string) returns (r: string)
    ensures r == Stripped(Lines(body), |Lines(body)|)
  {
    hide Lines, IsOffset, TrimLeft;
    r := "";
    var lines := Lines(body);
    for i := 0 to |lines|
      invariant r == Stripped(lines, i)
    {
      if IsOffset(TrimLeft(lines[i])) {
        continue;
      }
      r := r + lines[i];
    }
  }

  datatype Rule = Rule(duration: nat, token: string)

  lemma NoLines(lines: seq<string>, offset: real, until: real, primary: string, grace: string, parse: Parser)
    ensures Announced(lines, 0, parse) == 0.0 && StartTime(lines, 0, offset, parse) == offset
    ensures NewLines(lines, 0, offset, until, primary, grace, parse) == ""
  {
  }

  lemma OneMoreLine(
      lines: seq<string>, i: nat, offset: real, until: real, primary: string, grace: string, parse: Parser)
    requires i < |lines|
    ensures var c, pending, start := Classify(lines[i], parse), Announced(lines, i, parse), StartTime(lines, i, offset, parse);
      && Announced(lines, i + 1, parse)
         == (if c.Segment? then 0.0 else if c.Extinf? && c.duration.Some? then c.duration.value else pending)
      && StartTime(lines, i + 1, offset, parse) == (if c.Segment? then start + pending else start)
      && NewLines(lines, i + 1, offset, until, primary, grace, parse)
         == NewLines(lines, i, offset, until, primary, grace, parse)
            + (if c.OffsetLine? then ""
               else if c.Segment? && pending > 0.0 && start < until then SwapToken(lines[i], primary, grace) else lines[i])
  {
    hide Classify, SwapToken;
  }

  /** The walk over the lines. */
  method Walk(body: string, offset: real, until: real, primary: string, grace: string, parse: Parser) returns (r: string)
    ensures r == NewLines(Lines(body), |Lines(body)|, offset, until, primary, grace, parse)
    ensures forall film: Film | primary != "" && film.Shown(body, primary, parse) ::
      r == film.Swapped(film.Early(offset, until), primary, grace)
  {
    hide IsOffset, IsExtinf, ParseExtinf, TrimLeft, TrimLineEnd, SwapToken, Lines, NewLines, StartTime, Announced,
      Film.Shown, Film.Swapped, Film.Early;
    r := "";
    var lines := Lines(body);
    var movieTime, pendingExtinf := offset, 0.0;
    NoLines(lines, offset, until, primary, grace, parse);
    for i := 0 to |lines|
      invariant r == NewLines(lines, i, offset, until, primary, grace, parse)
      invariant movieTime == StartTime(lines, i, offset, parse) && pendingExtinf == Announced(lines, i, parse)
    {
      OneMoreLine(lines, i, offset, until, primary, grace, parse);
      var line := lines[i];
      var stripped := TrimLeft(TrimLineEnd(line));
      if IsOffset(stripped) {
        continue;
      }
      if IsExtinf(stripped) {
        var d := ParseExtinf(stripped, parse);
        if d.Some? {
          pendingExtinf := d.value;
        }
        r := r + line;
        continue;
      }
      if stripped == "" || stripped[0] == '#' {
        r := r + line;
        continue;
      }
      if movieTime < until && pendingExtinf > 0.0 {
        line := SwapToken(line, primary, grace);
      }
      movieTime := movieTime + pendingExtinf;
      pendingExtinf := 0.0;
      r := r + line;
    }
    FilmsRewritten(body, offset, until, primary, grace, parse);
  }

  /** Rewrites a playlist for the first grace rule of the request, if it has one. However a playlist is
      made up of segments, exactly those of some length that start within the grace period get the grace
      token; when the playlist itself starts after it, none does. */
  method RewriteManifest(body: string, rule: Option<Rule>, primary: string, parse: Parser) returns (r: string)
    ensures rule == None || primary == "" ==> r == body
    ensures rule.Some? && primary != "" ==>
      var lines, offset, until := Lines(body), ParseSessionOffset(body, parse), rule.value.duration as real;
      && (offset >= until ==> r == Stripped(lines, |lines|))
      && (offset < until || NonNegative(lines, parse) ==>
            r == NewLines(lines, |lines|, offset, until, primary, rule.value.token, parse))
    ensures forall film: Film | rule.Some? && primary != "" && film.Shown(body, primary, parse) ::
      var offset, until := ParseSessionOffset(body, parse), rule.value.duration as real;
      r == film.Swapped(if offset < until then film.Early(offset, until) else film.NoneChosen(), primary, rule.value.token)
  {
    hide Film.Shown, Film.Swapped, Film.Early, NewLines, Stripped, NonNegative, ParseSessionOffset, Lines;
    if rule == None || primary == "" {
      return body;
    }
    var sessionOffset := ParseSessionOffset(body, parse);
    var graceUntil := rule.value.duration as real;
    if sessionOffset >= graceUntil {
      r := StripSessionOffsetLine(body);
      FilmsRewritten(body, sessionOffset, graceUntil, primary, rule.value.token, parse);
      if NonNegative(Lines(body), parse) {
        EarlyExitIsFullWalk(Lines(body), |Lines(body)|, sessionOffset, graceUntil, primary, rule.value.token, parse);
      }
      return;
    }
    r := Walk(body, sessionOffset, graceUntil, primary, rule.value.token, parse);
  }

  // ---------- non-negative durations ----------

  ghost predicate NonNegative(lines: seq<string>, parse: Parser) {
    forall i :: 0 <= i < |lines| ==>
      var c := Classify(lines[i], parse);
      c.Extinf? && c.duration.Some? ==> c.duration.value >= 0.0
  }

  lemma {:induction false} AnnouncedNonNegative(lines: seq<string>, i: nat, parse: Parser)
    requires NonNegative(lines, parse) && i <= |lines|
    ensures Announced(lines, i, parse) >= 0.0
  {
    hide Classify;
    if i > 0 {
      AnnouncedNonNegative(lines, i - 1, parse);
    }
  }

  lemma {:induction false} TimeGoesOn(lines: seq<string>, i: nat, j: nat, offset: real, parse: Parser)
    requires NonNegative(lines, parse) && i <= j <= |lines|
    ensures StartTime(lines, i, offset, parse) <= StartTime(lines, j, offset, parse)
    decreases j
  {
    hide Classify, Announced;
    if i < j {
      TimeGoesOn(lines, i, j - 1, offset, parse);
      AnnouncedNonNegative(lines, j - 1, parse);
    }
  }

  /** The segments that get the grace token come before all other segments of some length. */
  lemma QualifyingIsAPrefix(lines: seq<string>, i: nat, j: nat, offset: real, until: real, parse: Parser)
    requires NonNegative(lines, parse) && i <= j < |lines| && Qualifies(lines, j, offset, until, parse)
    requires Classify(lines[i], parse).Segment? && Announced(lines, i, parse) > 0.0
    ensures Qualifies(lines, i, offset, until, parse)
  {
    hide Classify, Announced;
    TimeGoesOn(lines, i, j, offset, parse);
  }

  predicate IsLineEnd(s: string) {
    forall i :: 0 <= i < |s| ==> s[i] == '\r' || s[i] == '\n'
  }

  lemma {:induction false} TrimmedOff(raw: string)
    ensures TrimLineEnd(raw) <= raw && IsLineEnd(raw[|TrimLineEnd(raw)|..])
  {
    if raw != [] && (raw[|raw| - 1] == '\r' || raw[|raw| - 1] == '\n') {
      var shorter := raw[..|raw| - 1];
      TrimmedOff(shorter);
      var n := |TrimLineEnd(raw)|;
      assert raw[n..] == shorter[n..] + [raw[|raw| - 1]];
    }
  }

  /** Trimming on the left stops at the first visible character, or at the line end. */
  lemma {:induction false} TrimLeftOfBoth(t: string, e: string)
    requires IsLineEnd(e)
    ensures TrimLeft(t + e) == TrimLeft(t) + e
  {
    if t == [] {
      assert t + e == e;
      LineEndStays(e);
    } else if t[0] == ' ' || t[0] == '\t' {
      assert (t + e)[1..] == t[1..] + e;
      TrimLeftOfBoth(t[1..], e);
    } else {
      assert (t + e)[0] == t[0];
    }
  }

  lemma LineEndStays(e: string)
    requires IsLineEnd(e)
    ensures TrimLeft(e) == e
  {
  }

  lemma TagHasNoLineEnd(t: string, e: string)
    requires IsLineEnd(e)
    ensures IsOffset(t + e) <==> IsOffset(t)
  {
    assert forall i :: 0 <= i < |OFFSET_TAG| ==> OFFSET_TAG[i] != '\r' && OFFSET_TAG[i] != '\n';
    if |t| < |OFFSET_TAG| && e != [] {
      assert (t + e)[|t|] == e[0] != OFFSET_TAG[|t|];
    } else if e == [] {
      assert t + e == t;
    }
  }

  /** Both loops drop the same lines. */
  lemma SameLinesDropped(raw: string, parse: Parser)
    ensures IsOffset(TrimLeft(raw)) <==> Classify(raw, parse).OffsetLine?
  {
    hide IsOffset, IsExtinf, ParseExtinf, TrimLeft, TrimLineEnd, IsLineEnd;
    var t := TrimLineEnd(raw);
    var e := raw[|t|..];
    TrimmedOff(raw);
    assert raw == t + e;
    TrimLeftOfBoth(t, e);
    TagHasNoLineEnd(TrimLeft(t), e);
  }

  /** An offset past the grace period leaves nothing to swap: stopping early gives the bytes of the
      whole walk. */
  lemma {:induction false} EarlyExitIsFullWalk(
      lines: seq<string>, n: nat, offset: real, until: real, primary: string, grace: string, parse: Parser)
    requires NonNegative(lines, parse) && offset >= until && n <= |lines|
    ensures NewLines(lines, n, offset, until, primary, grace, parse) == Stripped(lines, n)
  {
    hide NewLine, IsOffset, TrimLeft, NonNegative;
    if n > 0 {
      EarlyExitIsFullWalk(lines, n - 1, offset, until, primary, grace, parse);
      LineAfterGrace(lines, n - 1, offset, until, primary, grace, parse);
    }
  }

  /** With non-negative durations, no line of a playlist that starts after the grace period changes. */
  lemma LineAfterGrace(
      lines: seq<string>, i: nat, offset: real, until: real, primary: string, grace: string, parse: Parser)
    requires NonNegative(lines, parse) && offset >= until && i < |lines|
    ensures NewLine(lines, i, offset, until, primary, grace, parse)
      == if IsOffset(TrimLeft(lines[i])) then "" else lines[i]
  {
    hide Classify, IsOffset, SwapToken, Announced, TrimLeft, StartTime, NonNegative;
    TimeGoesOn(lines, 0, i, offset, parse);
    StartsAtOffset(lines, offset, parse);
    SameLinesDropped(lines[i], parse);
  }

  lemma StartsAtOffset(lines: seq<string>, offset: real, parse: Parser)
    ensures StartTime(lines, 0, offset, parse) == offset
  {
  }

  /** A segment keeps its line exactly when it does not carry the primary token, or the grace token
      is the same. */
  lemma SwapsExactly(line: string, primary: string, grace: string)
    requires primary != ""
    ensures SwapToken(line, primary, grace) == line <==> !Contains(line, "token=" + primary) || primary == grace
  {
    var t, u := "token=" + primary, "token=" + grace;
    match Index(line, t)
    case None =>
    case Some(i) =>
      assert line == line[..i] + t + line[i + |t|..];
      if line[..i] + u + line[i + |t|..] == line {
        assert |u| == |t|;
        assert (line[..i] + u + line[i + |t|..])[i..i + |t|] == u;
        assert u[6..] == grace && t[6..] == primary;
      }
  }

  // ---------- segment by segment ----------

  /** What the first lines make of time and text does not depend on those after them. */
  lemma {:induction false} PrefixKept(
      lines: seq<string>, more: seq<string>, n: nat, offset: real, until: real, primary: string, grace: string, parse: Parser)
    requires n <= |lines|
    ensures Announced(lines + more, n, parse) == Announced(lines, n, parse)
    ensures StartTime(lines + more, n, offset, parse) == StartTime(lines, n, offset, parse)
    ensures NewLines(lines + more, n, offset, until, primary, grace, parse)
         == NewLines(lines, n, offset, until, primary, grace, parse)
    ensures Stripped(lines + more, n) == Stripped(lines, n)
  {
    hide Classify, SwapToken, IsOffset, TrimLeft;
    if n > 0 {
      PrefixKept(lines, more, n - 1, offset, until, primary, grace, parse);
    }
  }

  /** What one more line adds. */
  lemma Grows(lines: seq<string>, l: string, offset: real, until: real, primary: string, grace: string, parse: Parser)
    ensures var all, n, c := lines + [l], |lines|, Classify(l, parse);
      && Announced(all, n + 1, parse)
         == (if c.Segment? then 0.0 else if c.Extinf? && c.duration.Some? then c.duration.value else Announced(lines, n, parse))
      && StartTime(all, n + 1, offset, parse)
         == StartTime(lines, n, offset, parse) + (if c.Segment? then Announced(lines, n, parse) else 0.0)
      && NewLines(all, n + 1, offset, until, primary, grace, parse)
         == NewLines(lines, n, offset, until, primary, grace, parse)
            + (if c.OffsetLine? then ""
               else if c.Segment? && Announced(lines, n, parse) > 0.0 && StartTime(lines, n, offset, parse) < until
                 then SwapToken(l, primary, grace) else l)
      && Stripped(all, n + 1) == Stripped(lines, n) + if c.OffsetLine? then "" else l
  {
    hide Classify, SwapToken, IsOffset, TrimLeft;
    PrefixKept(lines, [l], |lines|, offset, until, primary, grace, parse);
    SameLinesDropped(l, parse);
    assert (lines + [l])[|lines|] == l;
  }

  lemma RestIsBlank(blanks: string)
    requires Blanks(blanks) && blanks != ""
    ensures Blanks(blanks[1..]) && (blanks[0] == ' ' || blanks[0] == '\t')
  {
    assert blanks[0] in blanks;
    forall c | c in blanks[1..]
      ensures c in blanks
    {
      var i :| 0 <= i < |blanks| - 1 && blanks[1..][i] == c;
      assert blanks[i + 1] == c;
    }
  }

  lemma {:induction false} BlanksTrimmed(blanks: string, core: string)
    requires Blanks(blanks) && (core == "" || (core[0] != ' ' && core[0] != '\t'))
    ensures TrimLeft(blanks + core) == core
  {
    hide Blanks;
    if blanks == "" {
      assert blanks + core == core;
    } else {
      RestIsBlank(blanks);
      assert (blanks + core)[1..] == blanks[1..] + core;
      BlanksTrimmed(blanks[1..], core);
    }
  }

  lemma EolTrimmed(s: string, eol: string)
    requires NoLineEnd(s) && IsEol(eol)
    ensures TrimLineEnd(s + eol) == s
  {
    assert TrimLineEnd(s) == s by {
      if s != "" {
        assert s[|s| - 1] in s;
      }
    }
    if eol == "\n" {
      assert (s + eol)[..|s + eol| - 1] == s;
    } else {
      var t := s + "\r";
      assert s + eol == t + "\n" && (t + "\n")[..|t|] == t && t[..|s|] == s;
      assert TrimLineEnd(t) == s;
    }
  }

  lemma CoreShown(blanks: string, core: string, eol: string)
    requires Blanks(blanks) && NoLineEnd(core) && IsEol(eol) && (core == "" || (core[0] != ' ' && core[0] != '\t'))
    ensures TrimLeft(TrimLineEnd(blanks + core + eol)) == core
  {
    BlanksNoEnd(blanks);
    NoEndInBoth(blanks, core);
    EolTrimmed(blanks + core, eol);
    BlanksTrimmed(blanks, core);
  }

  lemma SecondsRead(seconds: string, title: string)
    requires ',' !in seconds
    ensures DurationText(seconds + "," + title) == seconds
  {
    var s := seconds + "," + title;
    assert OccursAt(s, ",", |seconds|);
    forall j | 0 <= j < |seconds|
      ensures !OccursAt(s, ",", j)
    {
      assert s[j..j + 1][0] == seconds[j];
    }
    FirstIs(s, ",", |seconds|);
  }

  lemma ClassOfTag(t: Tag, eol: string, parse: Parser)
    requires PlainTag(t) && IsEol(eol)
    ensures Classify(TagLine(t, eol), parse) ==
      match t
      case Duration(_, seconds, _) => Extinf(parse(seconds))
      case Offset(_, _) => OffsetLine
      case Remark(_, _) => Other
  {
    hide TrimLeft, TrimLineEnd, DurationText, IsExtinf, IsOffset, ParseExtinf, NoLineEnd, Blanks;
    CoreNoEnd(t);
    CoreStart(t);
    CoreShown(t.blanks, Core(t), eol);
    CoreClass(t, parse);
  }

  lemma CoreStart(t: Tag)
    requires PlainTag(t)
    ensures var core := Core(t); core == "" || (core[0] != ' ' && core[0] != '\t')
  {
  }

  lemma CoreClass(t: Tag, parse: Parser)
    requires PlainTag(t)
    ensures var core := Core(t);
      match t
      case Duration(_, seconds, _) => !IsOffset(core) && IsExtinf(core) && ParseExtinf(core, parse) == parse(seconds)
      case Offset(_, _) => IsOffset(core)
      case Remark(_, _) => !IsOffset(core) && !IsExtinf(core) && (core == "" || core[0] == '#')
  {
    hide DurationText, NoLineEnd, Blanks;
    match t
    case Duration(blanks, seconds, title) =>
      var core := "#EXTINF:" + (seconds + "," + title);
      SecondsRead(seconds, title);
      assert core[4] != OFFSET_TAG[4];
      assert core[|EXTINF_TAG|..] == seconds + "," + title;
    case Offset(_, text) =>
    case Remark(_, text) =>
  }

  lemma ClassOfAddress(g: Piece, primary: string, eol: string, parse: Parser)
    requires PlainSegment(g, primary, eol) && IsEol(eol)
    ensures Classify(AddressLine(g, primary, eol), parse) == Segment
  {
    hide TrimLeft, TrimLineEnd, OccursAt, NoLineEnd, Blanks;
    AddressNoEnd(g, primary, eol);
    var core := if g.carries then g.head + "token=" + primary + g.tail else g.head;
    assert core[0] == g.head[0];
    CoreShown(g.blanks, core, eol);
  }

  /** The first primary token of an address becomes the grace token. */
  lemma SwapOfAddress(g: Piece, primary: string, grace: string, eol: string)
    requires PlainSegment(g, primary, eol) && primary != ""
    ensures SwapToken(AddressLine(g, primary, eol), primary, grace) == AddressLine(g, grace, eol)
  {
    var line, needle := AddressLine(g, primary, eol), "token=" + primary;
    if g.carries {
      var before, after := g.blanks + g.head, g.tail + eol;
      assert line == before + needle + after;
      assert OccursAt(line, needle, |before|);
      FirstIs(line, needle, |before|);
      assert line[..|before|] == before && line[|before| + |needle|..] == after;
      assert AddressLine(g, grace, eol) == before + ("token=" + grace) + after;
    } else {
      NoFirst(line, needle);
    }
  }

  lemma NoFirst(s: string, t: string)
    requires forall j :: 0 <= j < |s| + 1 ==> !OccursAt(s, t, j)
    ensures Index(s, t) == None
  {
  }

  /** The last duration among the first tags that can be read. */
  function LastRead(tags: seq<Tag>, d: real, parse: Parser): real {
    if tags == [] then d else
    match tags[|tags| - 1]
    case Duration(_, seconds, _) =>
      (match parse(seconds)
       case Some(x) => x
       case None => LastRead(tags[..|tags| - 1], d, parse))
    case _ => LastRead(tags[..|tags| - 1], d, parse)
  }

  lemma {:induction false} LastReadAt(tags: seq<Tag>, parse: Parser, i: nat)
    requires i < |tags| && tags[i].Duration? && parse(tags[i].seconds).Some?
    requires forall j :: i < j < |tags| && tags[j].Duration? ==> parse(tags[j].seconds) == None
    ensures LastRead(tags, 0.0, parse) == parse(tags[i].seconds).value
  {
    if i < |tags| - 1 {
      LastReadAt(tags[..|tags| - 1], parse, i);
    }
  }

  lemma {:induction false} NoneRead(tags: seq<Tag>, parse: Parser)
    requires forall j :: 0 <= j < |tags| && tags[j].Duration? ==> parse(tags[j].seconds) == None
    ensures LastRead(tags, 0.0, parse) == 0.0
  {
    if tags != [] {
      NoneRead(tags[..|tags| - 1], parse);
    }
  }

  lemma LastsIsLastRead(tags: seq<Tag>, d: real, parse: Parser)
    requires Lasts(tags, d, parse)
    ensures LastRead(tags, 0.0, parse) == d
  {
    if i :| 0 <= i < |tags| && LastReadable(tags, i, d, parse) {
      LastReadAt(tags, parse, i);
    } else {
      NoneRead(tags, parse);
    }
  }

  lemma {:induction false} TagsGrow(
      lines: seq<string>, tags: seq<Tag>, eol: string,
      offset: real, until: real, primary: string, grace: string, parse: Parser)
    requires IsEol(eol) && forall t <- tags :: PlainTag(t)
    ensures var all, n := lines + TagLines(tags, eol), |lines|;
      && Announced(all, |all|, parse) == LastRead(tags, Announced(lines, n, parse), parse)
      && StartTime(all, |all|, offset, parse) == StartTime(lines, n, offset, parse)
      && NewLines(all, |all|, offset, until, primary, grace, parse)
         == NewLines(lines, n, offset, until, primary, grace, parse) + KeptText(tags, eol)
      && Stripped(all, |all|) == Stripped(lines, n) + KeptText(tags, eol)
  {
    hide Classify, SwapToken, IsOffset, TrimLeft, PlainTag, TagLine, NewLines, Stripped, Announced, StartTime;
    if tags == [] {
      assert lines + [] == lines;
    } else {
      var front, t := tags[..|tags| - 1], tags[|tags| - 1];
      TagsGrow(lines, front, eol, offset, until, primary, grace, parse);
      var before := lines + TagLines(front, eol);
      assert lines + TagLines(tags, eol) == before + [TagLine(t, eol)];
      Grows(before, TagLine(t, eol), offset, until, primary, grace, parse);
      ClassOfTag(t, eol, parse);
    }
  }

  lemma PieceGrows(
      lines: seq<string>, g: Piece, d: real, eol: string,
      offset: real, until: real, primary: string, grace: string, parse: Parser)
    requires IsEol(eol) && primary != "" && PlainSegment(g, primary, eol) && Lasts(g.tags, d, parse)
    requires Announced(lines, |lines|, parse) == 0.0
    ensures var all, n := lines + TagLines(g.tags, eol) + [AddressLine(g, primary, eol)], |lines|;
      var start := StartTime(lines, n, offset, parse);
      && Announced(all, |all|, parse) == 0.0
      && StartTime(all, |all|, offset, parse) == start + d
      && NewLines(all, |all|, offset, until, primary, grace, parse)
         == NewLines(lines, n, offset, until, primary, grace, parse) + KeptText(g.tags, eol)
            + AddressLine(g, if d > 0.0 && start < until then grace else primary, eol)
      && Stripped(all, |all|) == Stripped(lines, n) + KeptText(g.tags, eol) + AddressLine(g, primary, eol)
  {
    hide Classify, SwapToken, IsOffset, TrimLeft, PlainTag, NewLines, Stripped, Announced, StartTime, OccursAt, AddressLine, Lasts;
    TagsOfPlain(g, primary, eol);
    TagsGrow(lines, g.tags, eol, offset, until, primary, grace, parse);
    LastsIsLastRead(g.tags, d, parse);
    Grows(lines + TagLines(g.tags, eol), AddressLine(g, primary, eol), offset, until, primary, grace, parse);
    ClassOfAddress(g, primary, eol, parse);
    SwapOfAddress(g, primary, grace, eol);
  }

  lemma {:induction false} SumSnoc(ds: seq<real>, d: real)
    ensures Sum(ds + [d]) == Sum(ds) + d
  {
    if ds == [] {
      assert [] + [d] == [d] && [d][1..] == [];
    } else {
      assert (ds + [d])[1..] == ds[1..] + [d];
      SumSnoc(ds[1..], d);
    }
  }

  /** The segments that start early, of the first ones. */
  ghost predicate EarlyOnes(chosen: seq<bool>, ds: seq<real>, offset: real, until: real) {
    |chosen| == |ds| && forall k :: 0 <= k < |ds| ==> chosen[k] == (ds[k] > 0.0 && offset + Sum(ds[..k]) < until)
  }

  lemma EarlyCount(chosen: seq<bool>, ds: seq<real>, offset: real, until: real)
    requires EarlyOnes(chosen, ds, offset, until)
    ensures |chosen| == |ds|
  {
  }

  lemma EarlyFront(chosen: seq<bool>, ds: seq<real>, offset: real, until: real)
    requires EarlyOnes(chosen, ds, offset, until) && ds != []
    ensures var n := |ds| - 1;
      EarlyOnes(chosen[..n], ds[..n], offset, until) && chosen[n] == (ds[n] > 0.0 && offset + Sum(ds[..n]) < until)
      && Sum(ds) == Sum(ds[..n]) + ds[n]
  {
    hide Sum;
    var n := |ds| - 1;
    forall k | 0 <= k < n
      ensures chosen[..n][k] == (ds[..n][k] > 0.0 && offset + Sum(ds[..n][..k]) < until)
    {
      assert ds[..n][..k] == ds[..k];
    }
    SumSnoc(ds[..n], ds[n]);
    assert ds == ds[..n] + [ds[n]];
  }

  lemma {:induction false} PiecesGrow(
      gs: seq<Piece>, ds: seq<real>, chosen: seq<bool>, none: seq<bool>, eol: string,
      offset: real, until: real, primary: string, grace: string, parse: Parser)
    requires IsEol(eol) && primary != "" && |ds| == |gs| && EarlyOnes(chosen, ds, offset, until)
    requires |none| == |gs| && forall k :: 0 <= k < |none| ==> !none[k]
    requires (forall g <- gs :: PlainSegment(g, primary, eol))
    requires forall k :: 0 <= k < |gs| ==> Lasts(gs[k].tags, ds[k], parse)
    ensures var lines := SegmentLines(gs, primary, eol);
      && Announced(lines, |lines|, parse) == 0.0
      && StartTime(lines, |lines|, offset, parse) == offset + Sum(ds)
      && NewLines(lines, |lines|, offset, until, primary, grace, parse) == SwappedText(gs, chosen, primary, grace, eol)
      && Stripped(lines, |lines|) == SwappedText(gs, none, primary, grace, eol)
  {
    hide Classify, SwapToken, IsOffset, TrimLeft, PlainSegment, Lasts, AddressLine, EarlyOnes;
    if gs != [] {
      hide NewLines, Stripped, Announced, StartTime, Sum;
      var n := |gs| - 1;
      assert |chosen| == |ds| by {
        EarlyCount(chosen, ds, offset, until);
      }
      EarlyFront(chosen, ds, offset, until);
      PiecesGrow(gs[..n], ds[..n], chosen[..n], none[..n], eol, offset, until, primary, grace, parse);
      PieceGrows(SegmentLines(gs[..n], primary, eol), gs[n], ds[n], eol, offset, until, primary, grace, parse);
    }
  }

  /** What the full walk, and the early exit, make of a playlist of segments. */
  lemma FilmRewritten(
      film: Film, body: string, offset: real, until: real, primary: string, grace: string, parse: Parser)
    requires film.Shown(body, primary, parse) && primary != ""
    ensures NewLines(Lines(body), |Lines(body)|, offset, until, primary, grace, parse)
         == film.Swapped(film.Early(offset, until), primary, grace)
    ensures Stripped(Lines(body), |Lines(body)|) == film.Swapped(film.NoneChosen(), primary, grace)
  {
    hide Classify, SwapToken, IsOffset, TrimLeft, PlainSegment, Lasts, AddressLine, NewLines, Stripped, Announced,
      StartTime, Lines, PlainTag, SwappedText, KeptText, BodyText, TagsText, SegmentLines, TagLines;
    LinesOfFilm(film, body, primary, parse);
    var a, eol := SegmentLines(film.segments, primary, film.eol), film.eol;
    PiecesGrow(film.segments, film.durations, film.Early(offset, until), film.NoneChosen(), eol, offset, until, primary, grace, parse);
    TagsGrow(a, film.rest, eol, offset, until, primary, grace, parse);
    var lines := a + TagLines(film.rest, eol);
    Grows(lines, "", offset, until, primary, grace, parse);
    NothingIsOther(parse);
  }

  lemma FilmsRewritten(body: string, offset: real, until: real, primary: string, grace: string, parse: Parser)
    ensures forall film: Film | primary != "" && film.Shown(body, primary, parse) ::
      && NewLines(Lines(body), |Lines(body)|, offset, until, primary, grace, parse)
         == film.Swapped(film.Early(offset, until), primary, grace)
      && Stripped(Lines(body), |Lines(body)|) == film.Swapped(film.NoneChosen(), primary, grace)
  {
    hide NewLines, Stripped, Lines, PlainSegment, PlainTag, Lasts, BodyText, TagsText, SwappedText, KeptText;
    forall film: Film | primary != "" && film.Shown(body, primary, parse)
      ensures NewLines(Lines(body), |Lines(body)|, offset, until, primary, grace, parse)
           == film.Swapped(film.Early(offset, until), primary, grace)
      ensures Stripped(Lines(body), |Lines(body)|) == film.Swapped(film.NoneChosen(), primary, grace)
    {
      FilmRewritten(film, body, offset, until, primary, grace, parse);
    }
  }

  lemma NothingIsOther(parse: Parser)
    ensures Classify("", parse) == Other
  {
  }

  // ---------- when stopping early is right ----------

  /** Only an address with the token changes with the token. */
  lemma AddressShifts(g: Piece, primary: string, grace: string, eol: string)
    requires primary != grace
    ensures var a, b := AddressLine(g, grace, eol), AddressLine(g, primary, eol);
      && |a| - |b| == (if g.carries then |grace| - |primary| else 0)
      && (a == b <==> !g.carries)
  {
    var a, b := AddressLine(g, grace, eol), AddressLine(g, primary, eol);
    if g.carries {
      var i := |g.blanks| + |g.head| + |"token="|;
      assert a[i..i + |grace|] == grace && b[i..i + |primary|] == primary;
    }
  }

  lemma SameParts(a: string, b: string, x: string, y: string)
    requires |a| == |b|
    ensures a + x == b + y <==> a == b && x == y
  {
    if a + x == b + y {
      assert a == (a + x)[..|a|] && b == (b + y)[..|b|];
      assert x == (a + x)[|a|..] && y == (b + y)[|b|..];
    }
  }

  ghost predicate SomeCarries(gs: seq<Piece>, chosen: seq<bool>)
    requires |chosen| == |gs|
  {
    exists k | 0 <= k < |gs| :: chosen[k] && gs[k].carries
  }

  lemma SomeFront(gs: seq<Piece>, chosen: seq<bool>)
    requires |chosen| == |gs| && gs != []
    ensures var n := |gs| - 1;
      SomeCarries(gs, chosen) <==> SomeCarries(gs[..n], chosen[..n]) || (chosen[n] && gs[n].carries)
  {
    var n := |gs| - 1;
    if SomeCarries(gs, chosen) {
      var k :| 0 <= k < |gs| && chosen[k] && gs[k].carries;
      assert k < n ==> chosen[..n][k] && gs[..n][k].carries;
    }
    if SomeCarries(gs[..n], chosen[..n]) {
      var k :| 0 <= k < n && chosen[..n][k] && gs[..n][k].carries;
      assert chosen[k] && gs[k].carries;
    }
  }

  /** Swapping tokens shows if and only if a chosen segment carries one. */
  lemma {:induction false} SwappingShows(
      gs: seq<Piece>, chosen: seq<bool>, none: seq<bool>, primary: string, grace: string, eol: string)
    requires |chosen| == |gs| == |none| && primary != grace && forall k :: 0 <= k < |none| ==> !none[k]
    ensures var a, b := SwappedText(gs, chosen, primary, grace, eol), SwappedText(gs, none, primary, grace, eol);
      && (if |grace| > |primary| then |a| >= |b| else |a| <= |b|) && (|grace| == |primary| ==> |a| == |b|)
      && (|grace| != |primary| ==> (|a| == |b| <==> !SomeCarries(gs, chosen)))
      && (a == b <==> !SomeCarries(gs, chosen))
  {
    hide SomeCarries, AddressLine, KeptText;
    if gs == [] {
      assert !SomeCarries(gs, chosen) by {
        NoneCarries(gs, chosen);
      }
    } else {
      hide SwappedText;
      var n := |gs| - 1;
      SwappingShows(gs[..n], chosen[..n], none[..n], primary, grace, eol);
      SomeFront(gs, chosen);
      AddressShifts(gs[n], primary, grace, eol);
      LastSwapped(gs, chosen, primary, grace, eol);
      LastSwapped(gs, none, primary, grace, eol);
      var a, b := SwappedText(gs[..n], chosen[..n], primary, grace, eol), SwappedText(gs[..n], none[..n], primary, grace, eol);
      var kept := KeptText(gs[n].tags, eol);
      if |a| == |b| {
        SameParts(a + kept, b + kept, AddressLine(gs[n], if chosen[n] then grace else primary, eol), AddressLine(gs[n], primary, eol));
        SameParts(a, b, kept, kept);
      }
    }
  }

  lemma NoneCarries(gs: seq<Piece>, chosen: seq<bool>)
    requires |chosen| == |gs| == 0
    ensures !SomeCarries(gs, chosen)
  {
  }

  lemma LastSwapped(gs: seq<Piece>, chosen: seq<bool>, primary: string, grace: string, eol: string)
    requires |chosen| == |gs| && gs != []
    ensures var n := |gs| - 1;
      SwappedText(gs, chosen, primary, grace, eol)
        == SwappedText(gs[..n], chosen[..n], primary, grace, eol) + KeptText(gs[n].tags, eol)
           + AddressLine(gs[n], if chosen[n] then grace else primary, eol)
  {
  }

  /** Of a playlist of segments, stopping early gives the bytes of the full walk if and only if every
      segment of positive duration with the primary token starts at the end of the grace period or
      later: the offset and the durations before it, added up. */
  lemma EarlyExitOfFilm(
      film: Film, body: string, offset: real, until: real, primary: string, grace: string, parse: Parser)
    requires film.Shown(body, primary, parse) && primary != "" && primary != grace
    ensures Stripped(Lines(body), |Lines(body)|)
         == NewLines(Lines(body), |Lines(body)|, offset, until, primary, grace, parse)
      <==> forall k | 0 <= k < |film.segments| ::
             film.segments[k].carries && film.durations[k] > 0.0 ==> offset + Sum(film.durations[..k]) >= until
  {
    hide NewLines, Stripped, Lines, PlainSegment, PlainTag, Lasts, BodyText, TagsText, SwappedText, KeptText, Film.Early;
    FilmRewritten(film, body, offset, until, primary, grace, parse);
    var gs, rest := film.segments, KeptText(film.rest, film.eol);
    var chosen, none := film.Early(offset, until), film.NoneChosen();
    SwappingShows(gs, chosen, none, primary, grace, film.eol);
    var a, b := SwappedText(gs, chosen, primary, grace, film.eol), SwappedText(gs, none, primary, grace, film.eol);
    if a + rest == b + rest {
      SameParts(a, b, rest, rest);
    }
  }

  /** The offset is 0 without its tag, and what the first tag says up to the line end if that is a
      number, 0 if it is none. */
  lemma OffsetRead(body: string, before: string, text: string, after: string, parse: Parser)
    ensures (forall j :: 0 <= j ==> !OccursAt(body, "#EXT-X-SESSION-OFFSET:", j)) ==> ParseSessionOffset(body, parse) == 0.0
    ensures
      && body == before + "#EXT-X-SESSION-OFFSET:" + text + after
      && (forall j :: 0 <= j < |before| ==> !OccursAt(body, "#EXT-X-SESSION-OFFSET:", j))
      && NoLineEnd(text) && (after == "" || after[0] == '\r' || after[0] == '\n')
      ==> ParseSessionOffset(body, parse) == (if parse(text).Some? then parse(text).value else 0.0)
  {
    hide OccursAt, NoLineEnd;
    if
      && body == before + "#EXT-X-SESSION-OFFSET:" + text + after
      && (forall j :: 0 <= j < |before| ==> !OccursAt(body, "#EXT-X-SESSION-OFFSET:", j))
      && NoLineEnd(text) && (after == "" || after[0] == '\r' || after[0] == '\n')
    {
      AfterTag(body, before, OFFSET_TAG, text + after);
      LineEndIs(text, after);
      assert (text + after)[..|text|] == text;
    }
  }

  lemma AfterTag(body: string, before: string, tag: string, rest: string)
    requires body == before + tag + rest && forall j :: 0 <= j < |before| ==> !OccursAt(body, tag, j)
    ensures Index(body, tag) == Some(|before|) && body[|before| + |tag|..] == rest
  {
    assert OccursAt(body, tag, |before|);
    FirstIs(body, tag, |before|);
  }

  lemma LineEndIs(text: string, after: string)
    requires NoLineEnd(text) && (after == "" || after[0] == '\r' || after[0] == '\n')
    ensures LineEnd(text + after) == |text|
  {
    assert forall i :: 0 <= i < |text| ==> (text + after)[i] == text[i] && text[i] in text;
    if after != "" {
      assert (text + after)[|text|] == after[0];
    }
  }

  /** A segment of positive duration that carries the primary token. */
  predicate Carries(lines: seq<string>, i: nat, primary: string, parse: Parser)
    requires i < |lines|
  {
    Classify(lines[i], parse).Segment? && Announced(lines, i, parse) > 0.0 && Contains(lines[i], "token=" + primary)
  }

  /** A line that the walk changes. */
  predicate Changes(lines: seq<string>, i: nat, offset: real, until: real, primary: string, parse: Parser)
    requires i < |lines|
  {
    Carries(lines, i, primary, parse) && StartTime(lines, i, offset, parse) < until
  }

  /** One line of both outputs: the same unless the walk changes it. */
  lemma LineChanges(lines: seq<string>, i: nat, offset: real, until: real, primary: string, grace: string, parse: Parser)
    requires i < |lines| && primary != "" && primary != grace
    ensures var line := NewLine(lines, i, offset, until, primary, grace, parse);
      var was := if IsOffset(TrimLeft(lines[i])) then "" else lines[i];
      if Changes(lines, i, offset, until, primary, parse) then line != was && |line| - |was| == |grace| - |primary|
      else line == was
  {
    hide IsOffset, Announced, StartTime, TrimLeft, Index;
    SameLinesDropped(lines[i], parse);
    SwapsExactly(lines[i], primary, grace);
  }

  /** The outputs differ in length by the changed lines alone. */
  lemma {:induction false} LengthsShift(
      lines: seq<string>, n: nat, offset: real, until: real, primary: string, grace: string, parse: Parser)
    requires n <= |lines| && primary != "" && primary != grace
    ensures var d := |NewLines(lines, n, offset, until, primary, grace, parse)| - |Stripped(lines, n)|;
      var some := exists i :: 0 <= i < n && Changes(lines, i, offset, until, primary, parse);
      && (|grace| > |primary| ==> if some then d > 0 else d == 0)
      && (|grace| < |primary| ==> if some then d < 0 else d == 0)
      && (|grace| == |primary| ==> d == 0)
  {
    hide NewLine, Changes, IsOffset, TrimLeft;
    if n > 0 {
      LengthsShift(lines, n - 1, offset, until, primary, grace, parse);
      LineChanges(lines, n - 1, offset, until, primary, grace, parse);
    }
  }

  lemma {:induction false} SameLengthTokens(
      lines: seq<string>, n: nat, offset: real, until: real, primary: string, grace: string, parse: Parser)
    requires n <= |lines| && primary != "" && primary != grace && |primary| == |grace|
    ensures NewLines(lines, n, offset, until, primary, grace, parse) == Stripped(lines, n)
      <==> forall i :: 0 <= i < n ==> !Changes(lines, i, offset, until, primary, parse)
  {
    hide NewLine, Changes, IsOffset, TrimLeft;
    if n > 0 {
      SameLengthTokens(lines, n - 1, offset, until, primary, grace, parse);
      LengthsShift(lines, n - 1, offset, until, primary, grace, parse);
      LineChanges(lines, n - 1, offset, until, primary, grace, parse);
      SameParts(NewLines(lines, n - 1, offset, until, primary, grace, parse), Stripped(lines, n - 1),
                NewLine(lines, n - 1, offset, until, primary, grace, parse),
                if IsOffset(TrimLeft(lines[n - 1])) then "" else lines[n - 1]);
    }
  }

  lemma {:induction false} NothingChanged(
      lines: seq<string>, n: nat, offset: real, until: real, primary: string, grace: string, parse: Parser)
    requires n <= |lines| && primary != "" && primary != grace
    requires forall i :: 0 <= i < n ==> !Changes(lines, i, offset, until, primary, parse)
    ensures NewLines(lines, n, offset, until, primary, grace, parse) == Stripped(lines, n)
  {
    hide NewLine, Changes, IsOffset, TrimLeft;
    if n > 0 {
      NothingChanged(lines, n - 1, offset, until, primary, grace, parse);
      LineChanges(lines, n - 1, offset, until, primary, grace, parse);
    }
  }

  /** Stopping early gives the bytes of the full walk if and only if no segment of positive duration
      that carries the primary token starts before the end of the grace period: the offset and the
      durations before it, added up. */
  lemma EarlyExitIff(lines: seq<string>, offset: real, until: real, primary: string, grace: string, parse: Parser)
    requires primary != "" && primary != grace
    ensures Stripped(lines, |lines|) == NewLines(lines, |lines|, offset, until, primary, grace, parse)
      <==> forall i | 0 <= i < |lines| :: Carries(lines, i, primary, parse) ==> StartTime(lines, i, offset, parse) >= until
  {
    hide NewLines, Stripped, Carries, StartTime;
    var n := |lines|;
    if forall i :: 0 <= i < n ==> !Changes(lines, i, offset, until, primary, parse) {
      NothingChanged(lines, n, offset, until, primary, grace, parse);
      forall i | 0 <= i < n && Carries(lines, i, primary, parse)
        ensures StartTime(lines, i, offset, parse) >= until
      {
        assert !Changes(lines, i, offset, until, primary, parse);
      }
    } else {
      var i :| 0 <= i < n && Changes(lines, i, offset, until, primary, parse);
      LengthsShift(lines, n, offset, until, primary, grace, parse);
      if |primary| == |grace| {
        SameLengthTokens(lines, n, offset, until, primary, grace, parse);
      }
    }
  }

  /** A playlist that starts at 10, with a segment of minus ten seconds before one of two. */
  const PLAYLIST_BACK :=
    OFFSET_TAG + "10" + "\n" + ("#EXTINF:-10," + "\n" + ("a?token=P" + "\n" + ("#EXTINF:2," + "\n" + ("b?token=P" + "\n" + ""))))

  function LinesBack(): seq<string> {
    [OFFSET_TAG + "10" + "\n", "#EXTINF:-10," + "\n", "a?token=P" + "\n", "#EXTINF:2," + "\n", "b?token=P" + "\n", ""]
  }

  lemma PlaylistBackLines()
    ensures Lines(PLAYLIST_BACK) == LinesBack()
  {
    hide Lines;
    LinesOfNothing();
    LinesFirst("b?token=P", "");
    LinesFirst("#EXTINF:2,", "b?token=P" + "\n" + "");
    LinesFirst("a?token=P", "#EXTINF:2," + "\n" + ("b?token=P" + "\n" + ""));
    LinesFirst("#EXTINF:-10,", "a?token=P" + "\n" + ("#EXTINF:2," + "\n" + ("b?token=P" + "\n" + "")));
    LinesFirst(OFFSET_TAG + "10",
               "#EXTINF:-10," + "\n" + ("a?token=P" + "\n" + ("#EXTINF:2," + "\n" + ("b?token=P" + "\n" + ""))));
  }

  lemma ClassOf(core: string, parse: Parser)
    requires core != "" && NoLineEnd(core) && core[0] != ' ' && core[0] != '\t'
    ensures OFFSET_TAG <= core ==> Classify(core + "\n", parse) == OffsetLine
    ensures core[0] != '#' ==> Classify(core + "\n", parse) == Segment
    ensures EXTINF_TAG <= core && !(OFFSET_TAG <= core) ==> Classify(core + "\n", parse) == Extinf(ParseExtinf(core, parse))
  {
    assert (core + "\n")[..|core|] == core;
    assert TrimLineEnd(core) == core;
    assert TrimLineEnd(core + "\n") == core && TrimLeft(core) == core;
  }

  lemma DurationOf(d: string)
    requires ',' !in d
    ensures DurationText(d + ",") == d
  {
    var s := d + ",";
    assert OccursAt(s, ",", |d|);
    forall j | 0 <= j < |d|
      ensures !OccursAt(s, ",", j)
    {
      assert s[j..j + 1][0] == d[j];
    }
    FirstIs(s, ",", |d|);
  }

  /** A reader of numbers that knows the three of the playlist. */
  predicate ReadsThese(parse: Parser) {
    parse("10") == Some(10.0) && parse("-10") == Some(-10.0) && parse("2") == Some(2.0)
  }

  lemma ExtinfOf(d: string, parse: Parser)
    requires ',' !in d && NoLineEnd(d)
    ensures Classify("#EXTINF:" + (d + ",") + "\n", parse) == Extinf(parse(d))
  {
    hide Classify, DurationText;
    var core := "#EXTINF:" + (d + ",");
    assert core[4] != OFFSET_TAG[4];
    assert core[|EXTINF_TAG|..] == d + ",";
    ClassOf(core, parse);
    DurationOf(d);
  }

  lemma ClassesBack(parse: Parser)
    requires ReadsThese(parse)
    ensures var lines := LinesBack();
      && Classify(lines[0], parse) == OffsetLine
      && Classify(lines[1], parse) == Extinf(Some(-10.0)) && Classify(lines[2], parse) == Segment
      && Classify(lines[3], parse) == Extinf(Some(2.0)) && Classify(lines[4], parse) == Segment
  {
    hide Classify;
    ClassOf(OFFSET_TAG + "10", parse);
    ExtinfOf("-10", parse);
    ClassOf("a?token=P", parse);
    ExtinfOf("2", parse);
    ClassOf("b?token=P", parse);
    assert "#EXTINF:-10," == "#EXTINF:" + ("-10" + ",") && "#EXTINF:2," == "#EXTINF:" + ("2" + ",");
  }

  lemma OffsetBack(parse: Parser)
    requires ReadsThese(parse)
    ensures ParseSessionOffset(PLAYLIST_BACK, parse) == 10.0
  {
    var rest := PLAYLIST_BACK[|OFFSET_TAG|..];
    assert OccursAt(PLAYLIST_BACK, OFFSET_TAG, 0);
    FirstIs(PLAYLIST_BACK, OFFSET_TAG, 0);
    var after := "#EXTINF:-10," + "\n" + ("a?token=P" + "\n" + ("#EXTINF:2," + "\n" + ("b?token=P" + "\n" + "")));
    assert rest == "10" + "\n" + after;
    LineEndAfter("10", after);
    assert rest[..2] == "10";
  }

  /** With a negative duration stopping early loses grace. Playing time 10 is past a grace period of
      five seconds, so that this playlist is only stripped; but its last segment starts at 0, and the
      full walk gives it the grace token. */
  lemma NegativeDurationsBreakIt(parse: Parser, grace: string)
    requires ReadsThese(parse) && grace != "P"
    ensures var lines, offset := Lines(PLAYLIST_BACK), ParseSessionOffset(PLAYLIST_BACK, parse);
      && offset >= 5.0
      && Stripped(lines, |lines|) != NewLines(lines, |lines|, offset, 5.0, "P", grace, parse)
  {
    hide Classify, Stripped, NewLines, Lines, ParseSessionOffset;
    PlaylistBackLines();
    OffsetBack(parse);
    ClassesBack(parse);
    var lines := LinesBack();
    assert Announced(lines, 2, parse) == -10.0 && Announced(lines, 4, parse) == 2.0;
    assert StartTime(lines, 2, 10.0, parse) == 10.0 by {
      assert StartTime(lines, 1, 10.0, parse) == 10.0;
    }
    assert StartTime(lines, 4, 10.0, parse) == 0.0 by {
      assert StartTime(lines, 3, 10.0, parse) == 0.0;
    }
    assert OccursAt(lines[4], "token=" + "P", 2);
    assert Contains(lines[4], "token=" + "P");
    assert Carries(lines, 4, "P", parse);
    EarlyExitIff(lines, 10.0, 5.0, "P", grace, parse);
  }
}
