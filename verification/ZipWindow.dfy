/** Byte windows of a virtual sequence (section 14.1.2 of RFC 9110: both ends inclusive), and
    the clipping of a piece that sits somewhere in it. An end of -1 means no upper bound. */
module ZipWindow {
  import opened Bytes
  import opened Numbers
  import opened Options
  import opened ZipFormat

  predicate ValidRange(begin: nat, end: int) {
    end == -1 || begin <= end
  }

  /** The bytes of `s` at positions begin, ..., end that exist. */
  function Window(s: seq<byte>, begin: nat, end: int): seq<byte>
    requires ValidRange(begin, end)
  {
    s[Min(begin, |s|)..if end == -1 then |s| else Min(end + 1, |s|)]
  }

  function ClipLo(at: nat, begin: nat): nat {
    if at < begin then begin - at else 0
  }

  function ClipHi(n: nat, at: nat, end: int): int
    requires end >= -1
  {
    if end == -1 || at + n <= end then n else end - at + 1
  }

  /** The part of a piece `s`, placed at position `at`, that falls into the window. */
  function Clip(s: seq<byte>, at: nat, begin: nat, end: int): seq<byte>
    requires end >= -1
  {
    var lo, hi := ClipLo(at, begin), ClipHi(|s|, at, end);
    if lo < hi then s[lo..hi] else []
  }

  /** Whether a piece of length `n` at position `at` has no byte in the window. */
  predicate Outside(n: nat, at: nat, begin: nat, end: int) {
    at + n <= begin || (end != -1 && at > end)
  }

  lemma ClipBounds(s: seq<byte>, at: nat, begin: nat, end: int)
    requires ValidRange(begin, end)
    ensures var lo, hi := ClipLo(at, begin), ClipHi(|s|, at, end);
      if Outside(|s|, at, begin, end) then Clip(s, at, begin, end) == []
      else 0 <= lo <= hi <= |s| && Clip(s, at, begin, end) == s[lo..hi]
  {
  }

  lemma ClipOfEmpty(at: nat, begin: nat, end: int)
    requires end >= -1
    ensures Clip([], at, begin, end) == []
  {
  }

  lemma ClipAtZero(s: seq<byte>, begin: nat, end: int)
    requires ValidRange(begin, end)
    ensures Clip(s, 0, begin, end) == Window(s, begin, end)
  {
  }

  lemma SliceOfAppend(s: seq<byte>, t: seq<byte>, lo: nat, hi: nat)
    requires lo < hi <= |s| + |t|
    ensures (s + t)[lo..hi]
         == (if lo < |s| then s[lo..if hi <= |s| then hi else |s|] else [])
            + if hi <= |s| then [] else t[(if lo < |s| then 0 else lo - |s|)..hi - |s|]
  {
  }

  /** The bounds of two adjoining pieces of n and m bytes are those of the two joined. */
  lemma BoundsOfAppend(n: nat, m: nat, at: nat, begin: nat, end: int)
    requires ValidRange(begin, end)
    ensures var lo, hi := ClipLo(at, begin), ClipHi(n + m, at, end);
      && ClipLo(at + n, begin) == (if lo < n then 0 else lo - n)
      && hi <= n + m
      && if hi <= n then ClipHi(n, at, end) == hi && ClipHi(m, at + n, end) <= 0
         else ClipHi(n, at, end) == n && ClipHi(m, at + n, end) == hi - n
  {
  }

  /** Clipping distributes over concatenation: the heart of streaming a window piece by piece. */
  lemma ClipAppend(s: seq<byte>, t: seq<byte>, at: nat, begin: nat, end: int)
    requires ValidRange(begin, end)
    ensures Clip(s + t, at, begin, end) == Clip(s, at, begin, end) + Clip(t, at + |s|, begin, end)
  {
    hide ClipLo, ClipHi;
    BoundsOfAppend(|s|, |t|, at, begin, end);
    var lo, hi := ClipLo(at, begin), ClipHi(|s + t|, at, end);
    if lo < hi {
      SliceOfAppend(s, t, lo, hi);
    }
  }

  lemma AppendClipped(s: seq<byte>, t: seq<byte>, p: seq<byte>, q: seq<byte>, begin: nat, end: int)
    requires ValidRange(begin, end)
    requires p == Clip(s, 0, begin, end) && q == Clip(t, |s|, begin, end)
    ensures p + q == Clip(s + t, 0, begin, end)
  {
    ClipAppend(s, t, 0, begin, end);
  }

  lemma ThreePieces(s: seq<byte>, t: seq<byte>, u: seq<byte>, mid: seq<byte>, at: nat, begin: nat, end: int)
    requires ValidRange(begin, end)
    requires mid == Clip(t, at + |s|, begin, end)
    ensures Clip(s, at, begin, end) + mid + Clip(u, at + |s| + |t|, begin, end)
         == Clip(s + t + u, at, begin, end)
  {
    ClipAppend(s + t, u, at, begin, end);
    ClipAppend(s, t, at, begin, end);
  }

  lemma TwoPieces(s: seq<byte>, t: seq<byte>, begin: nat, end: int)
    requires ValidRange(begin, end)
    ensures Clip(s, 0, begin, end) + Clip(t, |s|, begin, end) == Window(s + t, begin, end)
  {
    ClipAppend(s, t, 0, begin, end);
    ClipAtZero(s + t, begin, end);
  }

  /** Adjacent windows concatenate to their union. */
  lemma WindowSplit(s: seq<byte>, begin: nat, mid: nat, end: nat)
    requires begin <= mid < end
    ensures Window(s, begin, mid) + Window(s, mid + 1, end) == Window(s, begin, end)
  {
  }

  /** A window below the length has the length its Content-Length header declares. */
  lemma WindowLength(s: seq<byte>, begin: nat, end: nat)
    requires begin <= end < |s|
    ensures |Window(s, begin, end)| == end - begin + 1
    ensures forall i :: begin <= i <= end ==> Window(s, begin, end)[i - begin] == s[i]
  {
  }

  // ---------- what a writer over a window emits ----------

  /** A member at position `at`: its records always, its content only when it has a page. */
  function EmitMember(it: Item, at: nat, begin: nat, end: int): seq<byte>
    requires end >= -1
  {
    var body := at + |LocalHeader(it.header)|;
    Clip(LocalHeader(it.header), at, begin, end)
    + (if it.header.url.Some? then Clip(it.content, body, begin, end) else [])
    + Clip(Descriptor(it.header), body + |it.content|, begin, end)
  }

  function Emit(items: seq<Item>, begin: nat, end: int): seq<byte>
    requires end >= -1
  {
    if items == [] then []
    else
      var front := items[..|items| - 1];
      Emit(front, begin, end) + EmitMember(items[|items| - 1], |Stream(front)|, begin, end)
  }

  /** Every content is fetched, or there is none. */
  predicate AllFetched(items: seq<Item>) {
    forall it <- items :: it.header.url.Some? || it.content == []
  }

  lemma EmitMemberIsClip(it: Item, at: nat, begin: nat, end: int)
    requires ValidRange(begin, end)
    requires it.header.url.Some? || it.content == []
    ensures EmitMember(it, at, begin, end) == Clip(Member(it), at, begin, end)
  {
    hide Clip, LocalHeader, Descriptor;
    var body := at + |LocalHeader(it.header)|;
    var mid := if it.header.url.Some? then Clip(it.content, body, begin, end) else [];
    ClipOfEmpty(body, begin, end);
    ThreePieces(LocalHeader(it.header), it.content, Descriptor(it.header), mid, at, begin, end);
  }

  /** The pieces emitted one after another are the window's part of the members. */
  lemma {:induction false} EmitIsClip(items: seq<Item>, begin: nat, end: int)
    requires ValidRange(begin, end) && AllFetched(items)
    ensures Emit(items, begin, end) == Clip(Stream(items), 0, begin, end)
  {
    if items != [] {
      var front, last := items[..|items| - 1], items[|items| - 1];
      assert AllFetched(front) by {
        assert forall it <- front :: it in items;
      }
      EmitIsClip(front, begin, end);
      EmitMemberIsClip(last, |Stream(front)|, begin, end);
      AppendClipped(Stream(front), Member(last), Emit(front, begin, end),
                    EmitMember(last, |Stream(front)|, begin, end), begin, end);
    }
  }

  /** Members and directory, each clipped at its own position, make the window of the archive. */
  lemma EmittedIsWindow(items: seq<Item>, comment: seq<byte>, begin: nat, end: int)
    requires ValidRange(begin, end) && AllFetched(items)
    ensures Emit(items, begin, end)
            + Clip(Ending(Headers(items), |Stream(items)|, comment), |Stream(items)|, begin, end)
         == Window(Archive(items, comment), begin, end)
  {
    EmitIsClip(items, begin, end);
    TwoPieces(Stream(items), Ending(Headers(items), |Stream(items)|, comment), begin, end);
  }

  lemma EmitSnoc(items: seq<Item>, it: Item, begin: nat, end: int)
    requires end >= -1
    ensures Emit(items + [it], begin, end)
         == Emit(items, begin, end) + EmitMember(it, |Stream(items)|, begin, end)
  {
    assert (items + [it])[..|items|] == items;
  }
}
