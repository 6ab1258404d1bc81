/** The reader that resumes a broken download: it reconnects at the offset it has reached and goes
    on, so that its caller sees one stream. */
module ResumingReader {
  import opened Bytes
  import opened Collections
  import opened Decimals
  import opened Numbers
  import opened Options
  import opened Texts

  // ---------- ranges ----------

  const MAX_INT64 := 0x7fff_ffff_ffff_ffff

  /** What ParseInt returns, errors ignored: 0 for what is no number, the nearest bound for a number
      too large. */
  function ParseInt(s: string): (n: int)
    ensures -MAX_INT64 - 1 <= n <= MAX_INT64
  {
    var digits := if s != [] && (s[0] == '-' || s[0] == '+') then s[1..] else s;
    if digits == [] || !IsDigits(digits) then 0
    else
      var v: int := DecimalValue(digits);
      if s[0] == '-' then (if v > MAX_INT64 + 1 then -MAX_INT64 - 1 else -v)
      else if v > MAX_INT64 then MAX_INT64 else v
  }

  /** The text around the first occurrence of a character. */
  function Cut(s: string, c: char): Option<(string, string)> {
    if s == [] then None
    else if s[0] == c then Some(("", s[1..]))
    else match Cut(s[1..], c)
      case None => None
      case Some((a, b)) => Some(([s[0]] + a, b))
  }

  datatype Range = Range(start: int, end: Option<int>)

  function ParseRange(header: string): Range {
    match Cut(TrimPrefix(header, "bytes="), '-')
    case None => Range(0, None)
    case Some((a, b)) => Range(ParseInt(a), if b != "" then Some(ParseInt(b)) else None)
  }

  /** What a request can ask for: section 14.1.2 of RFC 9110. */
  datatype Wanted = Everything | From(first: nat) | Between(first: nat, last: nat) | Suffix(length: nat)

  function Header(w: Wanted): string {
    match w
    case Everything => ""
    case From(a) => "bytes=" + Decimal(a) + "-"
    case Between(a, b) => "bytes=" + Decimal(a) + "-" + Decimal(b)
    case Suffix(k) => "bytes=" + "-" + Decimal(k)
  }

  /** The part of the source that a server honouring ranges sends, from the first position up to
      the second. */
  function Served(size: nat, w: Wanted): (nat, nat) {
    match w
    case Everything => (0, size)
    case From(a) => (a, size)
    case Between(a, b) => (a, if b < size then b + 1 else size)
    case Suffix(k) => (if k < size then size - k else 0, size)
  }

  predicate Satisfiable(size: nat, w: Wanted) {
    match w
    case Everything => true
    case From(a) => a < size
    case Between(a, b) => a < size && a <= b
    case Suffix(k) => k > 0 && size > 0
  }

  /** Where the reader takes its source to start. */
  function OrigStart(header: string): int {
    if header != "" then ParseRange(header).start else 0
  }

  lemma {:induction false} CutAt(a: string, c: char, b: string)
    requires c !in a
    ensures Cut(a + [c] + b, c) == Some((a, b))
  {
    if a == [] {
      assert a + [c] + b == [c] + b;
    } else {
      CutAt(a[1..], c, b);
      assert (a + [c] + b)[1..] == a[1..] + [c] + b;
      assert [a[0]] + a[1..] == a;
    }
  }

  lemma ParseDecimal(n: nat)
    requires n <= MAX_INT64
    ensures ParseInt(Decimal(n)) == n && '-' !in Decimal(n)
  {
    var d := Decimal(n);
    DecimalReadsBack(n);
    assert '0' <= d[0];
    assert forall i :: 0 <= i < |d| ==> d[i] >= '0';
  }

  lemma ParsedParts(a: string, b: string)
    requires '-' !in a
    ensures ParseRange("bytes=" + a + "-" + b) == Range(ParseInt(a), if b != "" then Some(ParseInt(b)) else None)
  {
    hide ParseInt;
    var rest := a + ['-'] + b;
    assert "bytes=" + a + "-" + b == "bytes=" + rest;
    assert ("bytes=" + rest)[|"bytes="|..] == rest;
    CutAt(a, '-', b);
  }

  /** A header without a hyphen, or without a number before it, counts as a start at 0; a number too
      large for 64 bits counts as the largest that fits. */
  lemma OddRanges(a: string, b: string)
    requires '-' !in a
    ensures ParseRange("bytes=" + a) == Range(0, None)
    ensures var start := ParseRange("bytes=" + a + "-" + b).start;
      && (a == "" || (exists c <- a :: !('0' <= c <= '9') && c != '+') ==> start == 0)
      && (forall n: nat | n > MAX_INT64 :: a == Decimal(n) ==> start == 0x7fff_ffff_ffff_ffff)
  {
    hide DecimalValue, Decimal;
    assert ("bytes=" + a)[|"bytes="|..] == a;
    NoCut(a, '-');
    ParsedParts(a, b);
    forall n: nat | n > MAX_INT64 && a == Decimal(n)
      ensures ParseInt(a) == MAX_INT64
    {
      LargeNumber(n);
    }
    if c :| c in a && !('0' <= c <= '9') && c != '+' {
      NotANumber(a, c);
    }
  }

  lemma NotANumber(a: string, c: char)
    requires '-' !in a && c in a && !('0' <= c <= '9') && c != '+'
    ensures ParseInt(a) == 0
  {
    var digits := if a[0] == '+' then a[1..] else a;
    var i :| 0 <= i < |a| && a[i] == c;
    assert c in digits by {
      assert a[0] == '+' ==> i > 0 && digits[i - 1] == c;
    }
  }

  lemma LargeNumber(n: nat)
    requires n > MAX_INT64
    ensures ParseInt(Decimal(n)) == MAX_INT64
  {
    var d := Decimal(n);
    DecimalReadsBack(n);
    assert '0' <= d[0];
  }

  lemma {:induction false} NoCut(a: string, c: char)
    requires c !in a
    ensures Cut(a, c) == None
  {
    if a != "" {
      assert a[0] in a && forall d <- a[1..] :: d in a;
      NoCut(a[1..], c);
    }
  }

  /** Ranges with a first position are read back as they were written. */
  lemma ParsesBack(a: nat, b: nat)
    requires a <= MAX_INT64 && b <= MAX_INT64
    ensures ParseRange(Header(From(a))) == Range(a, None)
    ensures ParseRange(Header(Between(a, b))) == Range(a, Some(b))
  {
    hide ParseInt;
    ParseDecimal(a);
    ParseDecimal(b);
    ParsedParts(Decimal(a), "");
    ParsedParts(Decimal(a), Decimal(b));
    assert "bytes=" + Decimal(a) + "-" + "" == Header(From(a));
  }

  lemma SuffixStartsAtZero(k: nat)
    ensures OrigStart(Header(Suffix(k))) == 0
  {
    hide ParseInt;
    ParsedParts("", Decimal(k));
    assert "bytes=" + "" + "-" + Decimal(k) == Header(Suffix(k));
    NoNumber();
  }

  lemma NoNumber()
    ensures ParseInt("") == 0
  {
  }

  /** The reader knows where the source it got starts, except for a suffix of part of it, which it
      takes to start at 0. */
  lemma StartIsKnown(size: nat, w: Wanted)
    requires Satisfiable(size, w) && size <= MAX_INT64
    requires w.Between? ==> w.last <= MAX_INT64
    requires w.Suffix? ==> w.length <= MAX_INT64
    ensures OrigStart(Header(w)) == if w.Suffix? then 0 else Served(size, w).0
    ensures OrigStart(Header(w)) == Served(size, w).0 <==> !w.Suffix? || w.length >= size
  {
    hide ParseInt;
    match w
    case Everything =>
    case From(a) => ParsesBack(a, 0);
    case Between(a, b) => ParsesBack(a, b);
    case Suffix(k) => SuffixStartsAtZero(k);
  }

  /** A download of the part from `served` on that breaks after m bytes and is resumed as if it had
      started at `start` comes out right if and only if it had. */
  lemma ResumedRightIff(source: seq<byte>, served: nat, start: nat, m: nat)
    requires served + m <= |source| && start + m <= |source|
    ensures source[served..served + m] + source[start + m..] == source[served..] <==> start == served
  {
    if start == served {
      assert source[served..] == source[served..served + m] + source[served + m..];
    } else {
      assert |source[served..served + m] + source[start + m..]| != |source[served..]|;
    }
  }

  /** A download of the part of the source between two positions, resumed by readers who take it to
      start at `start`: `at` is what had come before the first resumption, if there was one. */
  datatype Download = Download(source: seq<byte>, start: nat, served: nat, stop: nat, at: Option<nat>) {
    ghost predicate Valid() {
      && served <= stop <= |source|
      && match at
         case None => true
         case Some(m) => served + m <= stop && start + m <= |source|
    }

    /** Everything handed out in the end: the part, or its first bytes and then the source from the
        offset reached, as counted from the start taken, to its end. */
    ghost function Whole(): seq<byte>
      requires Valid()
    {
      match at
      case None => source[served..stop]
      case Some(m) => source[served..served + m] + source[start + m..]
    }

    /** Whether the caller has the start of that, and the body goes on with the rest. */
    ghost predicate Follows(delivered: seq<byte>, rest: seq<byte>) {
      Valid() && delivered + rest == Whole() && (at.Some? ==> at.value <= |delivered|)
    }

    /** The download when a reader that has n bytes asks for the rest. */
    function Resumed(n: nat): Download {
      if at == None then this.(at := Some(n)) else this
    }

    lemma ResumesThere(delivered: seq<byte>, rest: seq<byte>)
      requires Follows(delivered, rest) && start + |delivered| <= |source|
      ensures Resumed(|delivered|).Follows(delivered, source[start + |delivered|..])
    {
      var n := |delivered|;
      assert delivered == Whole()[..n];
      match at
      case None =>
        assert |delivered + rest| == stop - served;
        assert delivered == source[served..served + n];
      case Some(m) =>
        var more := source[start + m..];
        assert rest == Whole()[n..] == more[n - m..] == source[start + n..];
    }

    /** Without a resumption, or when the start taken is the start served, what was delivered has no
        gap and no repeat. At the end, all of the part was delivered or, after a resumption, the rest
        of the source, and that is right if and only if the two starts agree; the part asked for came
        out if and only if nothing was resumed, or they agree and it reaches to the end. */
    lemma Right(delivered: seq<byte>, rest: seq<byte>)
      requires Follows(delivered, rest)
      ensures at == None || start == served ==> delivered <= source[served..]
      ensures rest == [] && at == None ==> delivered == source[served..stop]
      ensures rest == [] && at != None ==> (delivered == source[served..] <==> start == served)
      ensures rest == [] && (start == served || stop == |source|) ==>
        (delivered == source[served..stop] <==> at == None || (start == served && stop == |source|))
    {
      assert delivered == Whole()[..|delivered|];
      match at
      case None =>
      case Some(m) =>
        ResumedRightIff(source, served, start, m);
        assert rest == [] ==> delivered + rest == delivered;
    }
  }

  // ---------- the reader ----------

  /** Kinds of read errors; Other carries its message. */
  datatype Error =
    | Eof | Canceled | Deadline | UnexpectedEof | Reset | BrokenPipe | Refused | NetOp | Closed | Other(message: string)

  /** Errors of the connection, as opposed to the end and to errors of the caller. */
  predicate IsRetryable(e: Error) {
    match e
    case Eof => false
    case Canceled => false
    case Deadline => false
    case Closed => false
    case Other(m) => Contains(m, "connection reset") || Contains(m, "broken pipe") || Contains(m, "unexpected EOF")
    case _ => true
  }

  /** A response body: the stream of an upstream that answers honestly. What a read returns is up to
      the network, but it is the next bytes of the stream, and the end is reported only there. */
  class Body {
    const stream: seq<byte>
    var pos: nat
    var closed: bool

    predicate Valid()
      reads this
    {
      pos <= |stream|
    }

    constructor (stream: seq<byte>)
      ensures Valid() && this.stream == stream && pos == 0 && !closed
    {
      this.stream, pos, closed := stream, 0, false;
    }

    /** How many bytes a read brings. */
    function Ready(max: nat, net: Outcome): (n: nat)
      requires Valid()
      reads this
      ensures n <= max && pos + n <= |stream|
    {
      if closed then 0 else Min(Min(net.ready, max), |stream| - pos)
    }

    /** The error beside them. */
    function Problem(max: nat, net: Outcome): Option<Error>
      requires Valid()
      reads this
    {
      if closed then Some(Closed)
      else if net.err == Some(Eof) && pos + Ready(max, net) < |stream| then Some(UnexpectedEof)
      else net.err
    }

    method Read(max: nat, net: Outcome) returns (data: seq<byte>, err: Option<Error>)
      requires Valid()
      modifies this`pos
      ensures Valid() && |data| == old(Ready(max, net)) && err == old(Problem(max, net))
      ensures pos == old(pos) + |data| && data == stream[old(pos)..pos]
      ensures err == Some(Eof) ==> pos == |stream|
      ensures closed ==> data == [] && err == Some(Closed)
      ensures !closed ==>
        && |data| <= net.ready && |data| <= max && (|data| == net.ready || |data| == max || pos == |stream|)
        && err == (if net.err == Some(Eof) && pos < |stream| then Some(UnexpectedEof) else net.err)
    {
      if closed {
        return [], Some(Closed);
      }
      var n := Min(Min(net.ready, max), |stream| - pos);
      data := stream[pos..pos + n];
      pos := pos + n;
      err := if net.err == Some(Eof) && pos < |stream| then Some(UnexpectedEof) else net.err;
    }

    method Close()
      modifies this`closed
      ensures closed
    {
      closed := true;
    }
  }

  /** What the network does to a read: how many bytes it has, and an error beside them. */
  datatype Outcome = Outcome(ready: nat, err: Option<Error>)

  lemma OccursSomewhere(s: string, t: string)
    ensures Contains(s, t) <==> exists i :: OccursAt(s, t, i)
  {
  }

  class RetryingReadCloser {
    // what every upstream serves
    const source: seq<byte>
    // where the first upstream is taken to start, by the header
    const origStart: nat
    const maxRetries: nat
    var body: Body
    var bytesRead: nat
    var retries: nat
    var closed: bool
    // everything returned so far, the calls of the reconnect function, the part that the first
    // upstream serves, and how much it had brought when it was replaced, if it was
    ghost var delivered: seq<byte>
    ghost var reconnects: nat
    ghost const served: nat
    ghost const stop: nat
    ghost var resumedAt: Option<nat>

    ghost function Progress(): Download
      reads this
    {
      Download(source, origStart, served, stop, resumedAt)
    }

    /** The caller has what the first upstream brought of its part, followed, after a resumption, by
        the source from the offset reached as counted from the start taken; the body goes on there. */
    ghost predicate Valid()
      reads this, body
    {
      && body.Valid()
      && |delivered| == bytesRead
      && reconnects == retries <= maxRetries
      && Progress().Follows(delivered, body.stream[body.pos..])
    }

    /** `served` and `stop` are where the part sent starts and ends. */
    constructor (source: seq<byte>, origStart: nat, ghost served: nat, ghost stop: nat, body: Body, maxRetries: nat)
      requires body.Valid() && body.pos == 0 && served <= stop <= |source| && body.stream == source[served..stop]
      ensures Valid() && fresh(this) && this.body == body && bytesRead == retries == 0 && !closed && resumedAt == None
      ensures this.source == source && this.origStart == origStart && this.maxRetries == maxRetries
      ensures this.served == served && this.stop == stop
    {
      this.source, this.origStart, this.body, this.maxRetries := source, origStart, body, maxRetries;
      this.served, this.stop := served, stop;
      bytesRead, retries, closed := 0, 0, false;
      delivered, reconnects, resumedAt := [], 0, None;
      new;
      assert body.stream[0..] == body.stream;
    }

    /** Asks for the source from `origStart + offset` on, without an end. Another upstream answers
        with status 206, or the attempt fails, as it must where the source has ended. */
    method Reconnect(offset: nat, works: bool) returns (newBody: Body?)
      modifies this`reconnects
      ensures reconnects == old(reconnects) + 1
      ensures newBody != null <==> works && origStart + offset < |source|
      ensures newBody != null ==> (
          fresh(newBody) && newBody.Valid() && newBody.pos == 0 && !newBody.closed
          && newBody.stream == source[origStart + offset..])
    {
      reconnects := reconnects + 1;
      if !works || origStart + offset >= |source| {
        return null;
      }
      newBody := new Body(source[origStart + offset..]);
    }

    /** Reads from the body, counting what came. */
    method ReadBody(max: nat, net: Outcome) returns (data: seq<byte>, err: Option<Error>)
      requires Valid()
      modifies this`bytesRead, this`delivered, body`pos
      ensures Valid() && |data| <= max && delivered == old(delivered) + data
      ensures err == Some(Eof) ==> body.pos == |body.stream|
      ensures |data| == old(body.Ready(max, net)) && err == old(body.Problem(max, net))
    {
      hide Download.Whole;
      data, err := body.Read(max, net);
      assert delivered + body.stream[old(body.pos)..] == delivered + data + body.stream[body.pos..];
      delivered := delivered + data;
      bytesRead := bytesRead + |data|;
    }

    /** Closes the broken body and goes on with another one, if there is one. */
    method Resume(works: bool) returns (ok: bool)
      requires Valid() && retries < maxRetries
      modifies this`body, this`retries, this`reconnects, this`resumedAt, body`closed
      ensures Valid() && retries == old(retries) + 1
      ensures ok <==> works && origStart + bytesRead < |source|
      ensures if ok then fresh(body) else body == old(body)
      ensures ok ==> !body.closed && body.pos == 0 && body.stream == source[origStart + bytesRead..]
      ensures resumedAt == if ok && old(resumedAt) == None then Some(bytesRead) else old(resumedAt)
    {
      hide Download.Follows;
      body.Close();
      var newBody := Reconnect(bytesRead, works);
      retries := retries + 1;
      ok := newBody != null;
      if ok {
        assert newBody.stream[0..] == newBody.stream;
        Progress().ResumesThere(delivered, body.stream[body.pos..]);
        body := newBody;
        if resumedAt == None {
          resumedAt := Some(bytesRead);
        }
      }
    }

    /** Whether a read breaks down in a way that a reconnection may help: nothing came but an error
        of the connection, and an attempt is left. */
    predicate BreaksDown(max: nat, net: Outcome)
      requires body.Valid()
      reads this, body
    {
      !closed && body.Ready(max, net) == 0 && retries < maxRetries
      && match body.Problem(max, net)
         case None => false
         case Some(e) => IsRetryable(e)
    }

    /** A breakdown, by what the network does to the read. */
    lemma BreakdownsAre(max: nat, net: Outcome)
      requires body.Valid()
      ensures BreaksDown(max, net) ==
        (&& !closed && retries < maxRetries && !body.closed && (net.ready == 0 || max == 0 || body.pos == |body.stream|)
         && match net.err
            case None => false
            case Some(Eof) => body.pos < |body.stream|
            case Some(Canceled) => false
            case Some(Deadline) => false
            case Some(Closed) => false
            case Some(Other(m)) =>
              exists i :: OccursAt(m, "connection reset", i) || OccursAt(m, "broken pipe", i) || OccursAt(m, "unexpected EOF", i)
            case Some(_) => true)
    {
      hide OccursAt;
      if net.err.Some? && net.err.value.Other? {
        OccursSomewhere(net.err.value.message, "connection reset");
        OccursSomewhere(net.err.value.message, "broken pipe");
        OccursSomewhere(net.err.value.message, "unexpected EOF");
      }
    }

    /** What Download.Right says of this one. */
    lemma RightSoFar(ended: bool)
      requires Valid() && (ended ==> body.pos == |body.stream|)
      ensures served <= stop <= |source|
      ensures resumedAt == None || origStart == served ==> delivered <= source[served..]
      ensures ended && resumedAt == None ==> delivered == source[served..stop]
      ensures ended && resumedAt != None ==> (delivered == source[served..] <==> origStart == served)
      ensures ended && (origStart == served || stop == |source|) ==>
        (delivered == source[served..stop] <==> resumedAt == None || (origStart == served && stop == |source|))
    {
      Progress().Right(delivered, body.stream[body.pos..]);
    }

    /** What was delivered is unbroken unless a resumption started elsewhere than the first upstream
        did, and at the end of a resumed download it is right if and only if it did not. A resumed
        download goes on to the end of the source: it is the part asked for if and only if that
        reached to the end too. Exactly a breakdown uses up an attempt; errors are held back while
        there are bytes. */
    method Read(max: nat, net: Outcome, works: bool, again: Outcome) returns (data: seq<byte>, err: Option<Error>)
      requires Valid()
      modifies this`bytesRead, this`delivered, this`retries, this`reconnects, this`resumedAt, this`body, body
      ensures Valid() && |data| <= max && delivered == old(delivered) + data && served <= stop <= |source|
      ensures resumedAt == None || origStart == served ==> delivered <= source[served..]
      ensures err == Some(Eof) && resumedAt == None ==> delivered == source[served..stop]
      ensures err == Some(Eof) && resumedAt != None ==> (delivered == source[served..] <==> origStart == served)
      ensures err == Some(Eof) && (origStart == served || stop == |source|) ==>
        (delivered == source[served..stop] <==> resumedAt == None || (origStart == served && stop == |source|))
      ensures closed ==> data == [] && err == Some(Closed)
      ensures retries == old(retries) + if old(BreaksDown(max, net)) then 1 else 0
      ensures
        if !closed && old(retries < maxRetries && !body.closed) && (net.ready == 0 || max == 0 || old(body.pos == |body.stream|))
        then
          match net.err
          case None => retries == old(retries)
          case Some(Eof) => retries == old(retries) + if old(body.pos < |body.stream|) then 1 else 0
          case Some(Canceled) => retries == old(retries)
          case Some(Deadline) => retries == old(retries)
          case Some(Closed) => retries == old(retries)
          case Some(Other(m)) =>
            var known := exists i :: OccursAt(m, "connection reset", i) || OccursAt(m, "broken pipe", i) || OccursAt(m, "unexpected EOF", i);
            retries == old(retries) + if known then 1 else 0
          case Some(_) => retries == old(retries) + 1
        else retries == old(retries)
      ensures old(BreaksDown(max, net)) && works && origStart + old(bytesRead) < |source| ==>
        && fresh(body) && resumedAt == Some(if old(resumedAt) == None then old(bytesRead) else old(resumedAt.value))
        && |data| == Min(Min(again.ready, max), |source| - origStart - old(bytesRead))
        && (again.err != Some(Eof) ==> err == again.err)
      ensures old(BreaksDown(max, net)) && !(works && origStart + old(bytesRead) < |source|) ==>
        data == [] && err == old(body.Problem(max, net)) && body == old(body) && resumedAt == old(resumedAt)
      ensures !closed && !old(BreaksDown(max, net)) ==>
        && body == old(body) && resumedAt == old(resumedAt) && |data| == old(body.Ready(max, net))
        && err == (if data != [] && old(body.Problem(max, net)) != Some(Eof) then None else old(body.Problem(max, net)))
    {
      hide Download.Follows, Download.Whole, OccursAt;
      BreakdownsAre(max, net);
      RightSoFar(false);
      if closed {
        return [], Some(Closed);
      }
      data, err := ReadBody(max, net);
      RightSoFar(err == Some(Eof));
      if err == None || err == Some(Eof) {
        return;
      }
      if data != [] {
        return data, None;
      }
      if !IsRetryable(err.value) {
        return [], err;
      }
      if retries >= maxRetries {
        return [], err;
      }
      var ok := Resume(works);
      if !ok {
        return [], err;
      }
      data, err := ReadBody(max, again);
      RightSoFar(err == Some(Eof));
    }

    method Close()
      modifies this`closed, body`closed
      ensures closed && body.closed && (old(Valid()) ==> Valid())
    {
      closed := true;
      body.Close();
    }
  }

  /** Wraps the response to a request that upstream honours. The start comes from the header alone,
      and it is the start served unless a suffix shorter than the source was asked for. */
  method RoundTrip(source: seq<byte>, w: Wanted, maxRetries: nat) returns (r: RetryingReadCloser)
    requires |source| <= MAX_INT64 && Satisfiable(|source|, w)
    requires w.Between? ==> w.last <= MAX_INT64
    requires w.Suffix? ==> w.length <= MAX_INT64
    ensures r.Valid() && fresh(r) && fresh(r.body) && r.maxRetries == maxRetries && r.delivered == [] && r.resumedAt == None
    ensures r.source == source && (r.served, r.stop) == Served(|source|, w)
    ensures r.stop <= |source| && match w
      case Everything => (r.served, r.stop) == (0, |source|)
      case From(a) => (r.served, r.stop) == (a, |source|)
      case Between(a, b) => r.served == a && r.stop == (if b < |source| then b + 1 else |source|)
      case Suffix(k) => r.stop == |source| && (r.stop - r.served == k || (r.served == 0 && k > |source|))
    ensures r.origStart == r.served <==> !w.Suffix? || w.length >= |source|
    ensures r.origStart == r.served || r.stop == |source|
  {
    StartIsKnown(|source|, w);
    var part := Served(|source|, w);
    var body := new Body(source[part.0..part.1]);
    r := new RetryingReadCloser(source, OrigStart(Header(w)), part.0, part.1, body, maxRetries);
  }
}
