/** The playlist the transcoder hands out: FFmpeg's, with tags taken out and put in. */
module Playlist {
  import opened Decimals
  import opened Films
  import opened Manifest
  import opened Options
  import opened RunKeys
  import opened Texts

  const FIRST_LINE := "#EXTM3U\n"
  const ALLOW_CACHE := "#EXT-X-ALLOW-CACHE:YES\n"
  const ENDLIST := "#EXT-X-ENDLIST\n"
  const SEQUENCE_LINE := "#EXT-X-MEDIA-SEQUENCE:0\n"
  const TYPE_TAG := "#EXT-X-PLAYLIST-TYPE:"
  const EVENT_LINE := "#EXT-X-PLAYLIST-TYPE:EVENT\n"
  const START_TAG := "#EXT-X-START:"
  const START_LINE := "#EXT-X-START:TIME-OFFSET=0\n"

  /** A non-negative number without decimals, as in `%.0f`. */
  function Fixed0(x: real): string
    requires x >= 0.0
  {
    Decimal((x + 0.5).Floor)
  }

  /** All edits but the last. */
  function Edited(content: string): string {
    var c1 := Replace(content, ALLOW_CACHE, "");
    var c2 := Replace(c1, ENDLIST, "");
    var c3 := if Contains(c2, TYPE_TAG) then c2 else Replace(c2, SEQUENCE_LINE, SEQUENCE_LINE + EVENT_LINE);
    if Contains(c3, START_TAG) then c3 else Replace(c3, FIRST_LINE, FIRST_LINE + START_LINE)
  }

  function OffsetLine(seek: real): string
    requires seek >= 0.0
  {
    OFFSET_TAG + Fixed0(seek) + "\n"
  }

  /** Puts the offset of the session behind the first line, unless there is an offset already. */
  function WithOffset(content: string, seek: real): string
    requires seek >= 0.0
  {
    if Contains(content, OFFSET_TAG) then content
    else Replace(content, FIRST_LINE, FIRST_LINE + OffsetLine(seek))
  }

  function PlaylistForStream(content: string, seek: real): string
    requires seek >= 0.0
  {
    WithOffset(Edited(content), seek)
  }

  /** The proxy's number reader understands whole numbers. */
  ghost predicate ReadsWholeNumbers(parse: Parser) {
    forall n: nat :: parse(Decimal(n)) == Some(n as real)
  }

  lemma WholeSeconds(n: nat)
    ensures Position(n) >= 0.0 && Fixed0(Position(n)) == Decimal(30 * n)
  {
    hide Decimal;
    assert Position(n) == (30 * n) as real;
    assert (Position(n) + 0.5).Floor == 30 * n;
  }

  /** No tag begins before the place where one is put in: it would have to run over a newline. */
  lemma NoEarlierTag(before: string, after: string, i: nat)
    requires forall j :: 0 <= j ==> !OccursAt(before, OFFSET_TAG, j)
    requires before != "" && before[|before| - 1] == '\n' && i < |before|
    ensures !OccursAt(before + after, OFFSET_TAG, i)
  {
    var s := before + after;
    assert forall k :: 0 <= k < |OFFSET_TAG| ==> OFFSET_TAG[k] != '\n';
    if i + |OFFSET_TAG| <= |before| {
      assert before[i..i + |OFFSET_TAG|] == s[i..i + |OFFSET_TAG|];
      assert !OccursAt(before, OFFSET_TAG, i);
    } else if i + |OFFSET_TAG| <= |s| {
      assert s[i..i + |OFFSET_TAG|][|before| - 1 - i] == '\n';
    }
  }

  lemma ReadsTheTag(before: string, n: nat, after: string, parse: Parser)
    requires forall j :: 0 <= j ==> !OccursAt(before, OFFSET_TAG, j)
    requires before != "" && before[|before| - 1] == '\n' && ReadsWholeNumbers(parse)
    ensures ParseSessionOffset(before + OFFSET_TAG + Decimal(n) + "\n" + after, parse) == n as real
  {
    hide Decimal;
    var d := Decimal(n);
    var rest := d + "\n" + after;
    var s := before + OFFSET_TAG + d + "\n" + after;
    assert s == before + (OFFSET_TAG + rest) && s[|before| + |OFFSET_TAG|..] == rest;
    assert OccursAt(s, OFFSET_TAG, |before|);
    forall j | 0 <= j < |before|
      ensures !OccursAt(s, OFFSET_TAG, j)
    {
      NoEarlierTag(before, OFFSET_TAG + rest, j);
    }
    FirstIs(s, OFFSET_TAG, |before|);
    assert NoLineEnd(d) by {
      assert forall i :: 0 <= i < |d| ==> d[i] >= '0';
    }
    LineEndAfter(d, after);
    assert rest[..|d|] == d;
  }

  /** Cutting a text does not make a tag. */
  lemma NoTagInPart(c: string, part: string)
    requires part <= c && !Contains(c, OFFSET_TAG)
    ensures forall j :: 0 <= j ==> !OccursAt(part, OFFSET_TAG, j)
  {
    forall j | 0 <= j
      ensures !OccursAt(part, OFFSET_TAG, j)
    {
      if j + |OFFSET_TAG| <= |part| {
        assert part[j..j + |OFFSET_TAG|] == c[j..j + |OFFSET_TAG|];
        assert !OccursAt(c, OFFSET_TAG, j);
      }
    }
  }

  lemma Inserted(c: string, i: nat, tag: string, d: string)
    requires OccursAt(c, FIRST_LINE, i)
    ensures var before, after := c[..i + |FIRST_LINE|], c[i + |FIRST_LINE|..];
      && before != "" && before[|before| - 1] == '\n'
      && c[..i] + (FIRST_LINE + (tag + d + "\n")) + after == before + tag + d + "\n" + after
  {
    assert c[..i + |FIRST_LINE|] == c[..i] + FIRST_LINE;
  }

  lemma WithOffsetReadsBack(c: string, n: nat, parse: Parser)
    requires ReadsWholeNumbers(parse) && !Contains(c, OFFSET_TAG) && Contains(c, FIRST_LINE)
    ensures Position(n) >= 0.0 && ParseSessionOffset(WithOffset(c, Position(n)), parse) == (30 * n) as real
  {
    hide Decimal, ParseSessionOffset, Fixed0, ReadsWholeNumbers;
    WholeSeconds(n);
    var i := Index(c, FIRST_LINE).value;
    var before, after := c[..i + |FIRST_LINE|], c[i + |FIRST_LINE|..];
    NoTagInPart(c, before);
    Inserted(c, i, OFFSET_TAG, Decimal(30 * n));
    ReadsTheTag(before, 30 * n, after, parse);
  }

  /** The proxy reads back the position of the session if and only if that is the beginning or the
      playlist has a first line to put the tag behind. */
  lemma OffsetReadsBack(content: string, n: nat, parse: Parser)
    requires ReadsWholeNumbers(parse) && !Contains(Edited(content), OFFSET_TAG)
    ensures Position(n) >= 0.0
    ensures ParseSessionOffset(PlaylistForStream(content, Position(n)), parse) == Position(n)
      <==> n == 0 || Contains(Edited(content), FIRST_LINE)
  {
    hide Decimal, Edited, ReadsWholeNumbers;
    var c := Edited(content);
    assert Position(n) == (30 * n) as real;
    if Contains(c, FIRST_LINE) {
      WithOffsetReadsBack(c, n, parse);
    } else {
      assert Index(c, FIRST_LINE) == None;
      assert WithOffset(c, Position(n)) == c;
    }
  }

  // ---------- a playlist line by line ----------

  /** Whole lines without a tag in them. */
  ghost predicate Free(s: string, tag: string) {
    (s == "" || s[|s| - 1] == '\n') && forall j :: 0 <= j ==> !OccursAt(s, tag, j)
  }

  /** A tag, with the end of its line or without. */
  predicate IsTag(tag: string) {
    tag != "" && tag[0] == '#' && forall k :: 0 <= k < |tag| - 1 ==> tag[k] != '\n'
  }

  lemma OccursLeft(a: string, b: string, tag: string, j: nat)
    requires j + |tag| <= |a|
    ensures OccursAt(a + b, tag, j) <==> OccursAt(a, tag, j)
  {
    assert (a + b)[j..j + |tag|] == a[j..j + |tag|];
  }

  lemma OccursRight(a: string, b: string, tag: string, j: nat)
    ensures OccursAt(a + b, tag, |a| + j) <==> OccursAt(b, tag, j)
  {
    if j + |tag| <= |b| {
      assert (a + b)[|a| + j..|a| + j + |tag|] == b[j..j + |tag|];
    }
  }

  lemma OccursOver(a: string, b: string, tag: string, j: nat)
    requires IsTag(tag) && j < |a| < j + |tag| && a[|a| - 1] == '\n'
    ensures !OccursAt(a + b, tag, j)
  {
    if j + |tag| <= |a + b| {
      assert (a + b)[j..j + |tag|][|a| - 1 - j] == '\n';
    }
  }

  /** A tag does not run over the end of a line. */
  lemma NotBefore(a: string, b: string, tag: string, j: nat)
    requires IsTag(tag) && Free(a, tag) && j < |a|
    ensures !OccursAt(a + b, tag, j)
  {
    hide OccursAt, IsTag;
    if j + |tag| <= |a| {
      OccursLeft(a, b, tag, j);
    } else {
      OccursOver(a, b, tag, j);
    }
  }

  lemma FreeBoth(a: string, b: string, tag: string)
    requires IsTag(tag) && Free(a, tag) && Free(b, tag)
    ensures Free(a + b, tag)
  {
    hide OccursAt, IsTag;
    forall j | 0 <= j
      ensures !OccursAt(a + b, tag, j)
    {
      if j < |a| {
        NotBefore(a, b, tag, j);
      } else {
        OccursRight(a, b, tag, j - |a|);
      }
    }
  }

  /** A line with one hash, at its start. */
  predicate OneHash(line: string) {
    line != "" && line[|line| - 1] == '\n' && forall j :: 1 <= j < |line| ==> line[j] != '#'
  }

  /** Such a line holds no tag that it does not begin with. */
  lemma NotInLine(line: string, tag: string)
    requires IsTag(tag) && OneHash(line) && !(tag <= line)
    ensures Free(line, tag)
  {
    forall j | 0 <= j
      ensures !OccursAt(line, tag, j)
    {
      if j == 0 && |tag| <= |line| {
        assert line[0..|tag|] == line[..|tag|];
      } else if 0 < j && j + |tag| <= |line| {
        assert line[j..j + |tag|][0] == line[j];
      }
    }
  }

  /** The first line that is the tag is replaced. */
  lemma LineReplaced(before: string, line: string, after: string, u: string)
    requires IsTag(line) && line[|line| - 1] == '\n' && Free(before, line)
    ensures Replace(before + line + after, line, u) == before + u + after
  {
    var s := before + line + after;
    assert s == before + (line + after);
    forall j | 0 <= j < |before|
      ensures !OccursAt(s, line, j)
    {
      NotBefore(before, line + after, line, j);
    }
    assert OccursAt(s, line, |before|);
    FirstIs(s, line, |before|);
    assert s[..|before|] == before && s[|before| + |line|..] == after;
  }

  lemma NothingReplaced(s: string, tag: string, u: string)
    requires Free(s, tag)
    ensures !Contains(s, tag) && Replace(s, tag, u) == s
  {
    assert Index(s, tag) == None by {
      if Index(s, tag).Some? {
        assert !OccursAt(s, tag, Index(s, tag).value);
      }
    }
  }

  /** Whole lines with none of the tags that the edits look for. */
  ghost predicate Plain(s: string) {
    && Free(s, ALLOW_CACHE) && Free(s, ENDLIST) && Free(s, SEQUENCE_LINE) && Free(s, TYPE_TAG) && Free(s, START_TAG)
    && Free(s, FIRST_LINE) && Free(s, OFFSET_TAG)
  }

  lemma TheTags()
    ensures IsTag(ALLOW_CACHE) && IsTag(ENDLIST) && IsTag(SEQUENCE_LINE) && IsTag(TYPE_TAG) && IsTag(START_TAG)
    ensures IsTag(FIRST_LINE) && IsTag(OFFSET_TAG)
  {
  }

  lemma TheLines()
    ensures OneHash(FIRST_LINE) && OneHash(SEQUENCE_LINE) && OneHash(EVENT_LINE) && OneHash(START_LINE) && OneHash(ENDLIST)
  {
  }

  lemma NothingIsFree(tag: string)
    requires IsTag(tag)
    ensures Free("", tag)
  {
  }

  /** The tag that is looked for is none of the lines around it. */
  lemma DifferentTags()
    ensures !(ALLOW_CACHE <= FIRST_LINE) && !(ALLOW_CACHE <= SEQUENCE_LINE) && !(ALLOW_CACHE <= ENDLIST)
    ensures !(ENDLIST <= FIRST_LINE) && !(ENDLIST <= SEQUENCE_LINE)
    ensures !(TYPE_TAG <= FIRST_LINE) && !(TYPE_TAG <= SEQUENCE_LINE)
    ensures !(SEQUENCE_LINE <= FIRST_LINE)
    ensures !(START_TAG <= FIRST_LINE) && !(START_TAG <= SEQUENCE_LINE) && !(START_TAG <= EVENT_LINE)
    ensures !(OFFSET_TAG <= FIRST_LINE) && !(OFFSET_TAG <= SEQUENCE_LINE) && !(OFFSET_TAG <= EVENT_LINE) && !(OFFSET_TAG <= START_LINE)
  {
    assert ALLOW_CACHE[7] == 'A' && ENDLIST[7] == 'E' && SEQUENCE_LINE[7] == 'M' && TYPE_TAG[7] == 'P' && START_TAG[7] == 'S';
    assert OFFSET_TAG[8] == 'E' && START_LINE[8] == 'T' && EVENT_LINE[7] == 'P' && OFFSET_TAG[7] == 'S' && FIRST_LINE[4] == 'M';
    assert ALLOW_CACHE[4] == '-' && ENDLIST[4] == '-' && SEQUENCE_LINE[4] == '-' && TYPE_TAG[4] == '-' && START_TAG[4] == '-';
  }

  /** A line that may be there is taken out. */
  lemma LineOut(front: string, line: string, rest: string, tag: string)
    requires IsTag(tag) && tag[|tag| - 1] == '\n' && Free(front, tag) && Free(rest, tag) && (line == "" || line == tag)
    ensures Replace(front + line + rest, tag, "") == front + rest
  {
    hide Replace, Free, IsTag, OccursAt;
    if line == "" {
      FreeBoth(front, rest, tag);
      assert front + "" + rest == front + rest;
      NothingReplaced(front + rest, tag, "");
    } else {
      LineReplaced(front, tag, rest, "");
      assert front + "" + rest == front + rest;
    }
  }

  /** A line is put behind another. */
  lemma LineBehind(front: string, mark: string, rest: string, line: string)
    requires IsTag(mark) && mark[|mark| - 1] == '\n' && Free(front, mark)
    ensures Replace(front + mark + rest, mark, mark + line) == front + mark + line + rest
  {
    hide Replace, Free, IsTag, OccursAt;
    LineReplaced(front, mark, rest, mark + line);
    assert front + (mark + line) + rest == front + mark + line + rest;
  }

  lemma FreeThree(x: string, y: string, z: string, tag: string)
    requires IsTag(tag) && Free(x, tag) && Free(y, tag) && Free(z, tag)
    ensures Free(x + y, tag) && Free(x + y + z, tag)
  {
    hide IsTag, Free;
    FreeBoth(x, y, tag);
    FreeBoth(x + y, z, tag);
  }

  /** The first two edits, for whatever lines `out1` and `out2`. */
  lemma FirstEdits(front: string, cache: string, c: string, end: string, out1: string, out2: string)
    requires IsTag(out1) && out1[|out1| - 1] == '\n' && IsTag(out2) && out2[|out2| - 1] == '\n'
    requires Free(front, out1) && Free(front, out2) && Free(c, out1) && Free(c, out2) && Free(end, out1)
    requires (cache == "" || cache == out1) && (end == "" || end == out2)
    ensures Replace(Replace(front + cache + c + end, out1, ""), out2, "") == front + c
  {
    hide Replace, Free, IsTag, OccursAt;
    FreeBoth(c, end, out1);
    assert front + cache + c + end == front + cache + (c + end);
    LineOut(front, cache, c + end, out1);
    FreeBoth(front, c, out2);
    EmptyFree(c, out2);
    assert front + (c + end) == (front + c) + end + "" && (front + c) + "" == front + c;
    LineOut(front + c, end, "", out2);
  }

  lemma EmptyFree(s: string, tag: string)
    requires Free(s, tag) && IsTag(tag)
    ensures Free("", tag)
  {
  }

  /** A line is put behind `mark` unless the tag is there, which it is not. */
  lemma PutBehind(front: string, mark: string, rest: string, tag: string, line: string)
    requires IsTag(mark) && mark[|mark| - 1] == '\n' && Free(front, mark)
    requires IsTag(tag) && Free(front, tag) && Free(mark, tag) && Free(rest, tag)
    ensures var s := front + mark + rest;
      !Contains(s, tag) && Replace(s, mark, mark + line) == front + mark + line + rest
  {
    hide Replace, Free, IsTag, OccursAt, Contains;
    FreeThree(front, mark, rest, tag);
    NothingReplaced(front + mark + rest, tag, "");
    LineBehind(front, mark, rest, line);
  }

  lemma EditedIs(a: string, b: string, cache: string, c: string, end: string)
    requires Plain(a) && Plain(b) && Plain(c) && (cache == "" || cache == ALLOW_CACHE) && (end == "" || end == ENDLIST)
    ensures Edited(FIRST_LINE + a + SEQUENCE_LINE + b + cache + c + end)
      == FIRST_LINE + START_LINE + (a + SEQUENCE_LINE + EVENT_LINE + (b + c))
  {
    hide Replace, Free, IsTag, OccursAt, Contains, OneHash;
    TheTags();
    var front, rest := FIRST_LINE + a + SEQUENCE_LINE + b, b + c;
    EditedFront(a, b, end);
    FirstEdits(front, cache, c, end, ALLOW_CACHE, ENDLIST);
    Regrouped(FIRST_LINE, a, SEQUENCE_LINE, b, c);
    EditedEvent(a, b, c);
    var body := a + SEQUENCE_LINE + EVENT_LINE + rest;
    BodyFirst(FIRST_LINE, a, SEQUENCE_LINE, EVENT_LINE, rest);
    EditedStart(a, b, c);
  }

  lemma Regrouped(f: string, a: string, m: string, b: string, c: string)
    ensures f + a + m + b + c == f + a + m + (b + c)
  {
  }

  lemma BodyFirst(f: string, a: string, m: string, e: string, rest: string)
    ensures f + a + m + e + rest == f + (a + m + e + rest)
  {
  }

  lemma EditedFront(a: string, b: string, end: string)
    requires Plain(a) && Plain(b) && (end == "" || end == ENDLIST)
    ensures var front := FIRST_LINE + a + SEQUENCE_LINE + b;
      Free(front, ALLOW_CACHE) && Free(front, ENDLIST) && Free(end, ALLOW_CACHE)
  {
    hide Free, IsTag, OneHash;
    TheTags();
    TheLines();
    DifferentTags();
    NotInLine(FIRST_LINE, ALLOW_CACHE);
    NotInLine(SEQUENCE_LINE, ALLOW_CACHE);
    NotInLine(ENDLIST, ALLOW_CACHE);
    NotInLine(FIRST_LINE, ENDLIST);
    NotInLine(SEQUENCE_LINE, ENDLIST);
    NothingIsFree(ALLOW_CACHE);
    FourFree(FIRST_LINE, a, SEQUENCE_LINE, b, ALLOW_CACHE);
    FourFree(FIRST_LINE, a, SEQUENCE_LINE, b, ENDLIST);
  }

  lemma FourFree(x: string, y: string, z: string, w: string, tag: string)
    requires IsTag(tag) && Free(x, tag) && Free(y, tag) && Free(z, tag) && Free(w, tag)
    ensures Free(x + y + z + w, tag)
  {
    hide IsTag, Free;
    FreeThree(x, y, z, tag);
    FreeBoth(x + y + z, w, tag);
  }

  lemma EditedEvent(a: string, b: string, c: string)
    requires Plain(a) && Plain(b) && Plain(c)
    ensures var c2 := FIRST_LINE + a + SEQUENCE_LINE + (b + c);
      !Contains(c2, TYPE_TAG) && Replace(c2, SEQUENCE_LINE, SEQUENCE_LINE + EVENT_LINE)
        == FIRST_LINE + a + SEQUENCE_LINE + EVENT_LINE + (b + c)
  {
    hide Free, IsTag, OneHash, Replace, Contains;
    TheTags();
    TheLines();
    DifferentTags();
    NotInLine(FIRST_LINE, TYPE_TAG);
    NotInLine(SEQUENCE_LINE, TYPE_TAG);
    NotInLine(FIRST_LINE, SEQUENCE_LINE);
    FreeBoth(FIRST_LINE, a, TYPE_TAG);
    FreeBoth(FIRST_LINE, a, SEQUENCE_LINE);
    FreeBoth(b, c, TYPE_TAG);
    PutBehind(FIRST_LINE + a, SEQUENCE_LINE, b + c, TYPE_TAG, EVENT_LINE);
  }

  lemma BodyFree(a: string, b: string, c: string, tag: string)
    requires IsTag(tag) && Free(a, tag) && Free(b, tag) && Free(c, tag) && !(tag <= SEQUENCE_LINE) && !(tag <= EVENT_LINE)
    ensures Free(a + SEQUENCE_LINE + EVENT_LINE + (b + c), tag)
  {
    hide Free, IsTag, OneHash;
    TheLines();
    NotInLine(SEQUENCE_LINE, tag);
    NotInLine(EVENT_LINE, tag);
    FreeBoth(b, c, tag);
    FourFree(a, SEQUENCE_LINE, EVENT_LINE, b + c, tag);
  }

  /** The other edits put a line behind the first one, unless its tag is there. */
  lemma PutBehindFirst(rest: string, tag: string, line: string)
    requires IsTag(tag) && Free(rest, tag) && !(tag <= FIRST_LINE)
    ensures !Contains(FIRST_LINE + rest, tag)
    ensures Replace(FIRST_LINE + rest, FIRST_LINE, FIRST_LINE + line) == FIRST_LINE + line + rest
  {
    hide Replace, Free, IsTag, OneHash, OccursAt, Contains;
    TheTags();
    TheLines();
    NotInLine(FIRST_LINE, tag);
    NothingIsFree(FIRST_LINE);
    NothingIsFree(tag);
    PutBehind("", FIRST_LINE, rest, tag, line);
    assert "" + FIRST_LINE == FIRST_LINE;
  }

  lemma EditedStart(a: string, b: string, c: string)
    requires Plain(a) && Plain(b) && Plain(c)
    ensures var body := a + SEQUENCE_LINE + EVENT_LINE + (b + c);
      && !Contains(FIRST_LINE + body, START_TAG)
      && Replace(FIRST_LINE + body, FIRST_LINE, FIRST_LINE + START_LINE) == FIRST_LINE + START_LINE + body
  {
    hide Free, IsTag, Replace, Contains;
    TheTags();
    DifferentTags();
    BodyFree(a, b, c, START_TAG);
    PutBehindFirst(a + SEQUENCE_LINE + EVENT_LINE + (b + c), START_TAG, START_LINE);
  }

  lemma OffsetPut(a: string, b: string, c: string, n: nat)
    requires Plain(a) && Plain(b) && Plain(c)
    ensures Position(n) >= 0.0
    ensures var body := a + SEQUENCE_LINE + EVENT_LINE + (b + c);
      WithOffset(FIRST_LINE + START_LINE + body, Position(n))
        == FIRST_LINE + (OFFSET_TAG + Decimal(30 * n) + "\n") + (START_LINE + body)
  {
    hide Free, IsTag, OneHash, Replace, Contains, Decimal, Fixed0;
    TheTags();
    TheLines();
    DifferentTags();
    WholeSeconds(n);
    var body := a + SEQUENCE_LINE + EVENT_LINE + (b + c);
    BodyFree(a, b, c, OFFSET_TAG);
    NotInLine(START_LINE, OFFSET_TAG);
    FreeBoth(START_LINE, body, OFFSET_TAG);
    assert FIRST_LINE + START_LINE + body == FIRST_LINE + (START_LINE + body);
    PutBehindFirst(START_LINE + body, OFFSET_TAG, OFFSET_TAG + Decimal(30 * n) + "\n");
  }

  /** What the transcoder hands out of a playlist of FFmpeg: behind the first line, the position of the
      session in whole seconds and the order to start at the beginning; behind the number of the first
      segment, that the playlist grows; and without the permission to cache or the end of the list. */
  lemma HandedOut(a: string, b: string, cache: string, c: string, end: string, n: nat)
    requires Plain(a) && Plain(b) && Plain(c)
    requires (cache == "" || cache == "#EXT-X-ALLOW-CACHE:YES\n") && (end == "" || end == "#EXT-X-ENDLIST\n")
    ensures Position(n) >= 0.0
    ensures PlaylistForStream("#EXTM3U\n" + a + "#EXT-X-MEDIA-SEQUENCE:0\n" + b + cache + c + end, Position(n))
      == "#EXTM3U\n" + ("#EXT-X-SESSION-OFFSET:" + Decimal(30 * n) + "\n")
         + ("#EXT-X-START:TIME-OFFSET=0\n" + (a + "#EXT-X-MEDIA-SEQUENCE:0\n" + "#EXT-X-PLAYLIST-TYPE:EVENT\n" + (b + c)))
  {
    hide Edited, WithOffset, Decimal, Plain;
    EditedIs(a, b, cache, c, end);
    OffsetPut(a, b, c, n);
  }
}
