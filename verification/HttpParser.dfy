/** The incremental HTTP/1.1 request parser (`skynet/src/http/parser.cpp`). */
module HttpParser {
  import opened Bytes

  const CR: byte := 13
  const LF: byte := 10
  const SPACE: byte := 32
  const COLON: byte := 58
  const QUESTION: byte := 63
  const CONTENT_LENGTH: bytes := [67, 111, 110, 116, 101, 110, 116, 45, 76, 101, 110, 103, 116, 104]

  datatype State = Method | HeaderName | Body | Done
  datatype Header = Header(name: bytes, value: bytes)
  datatype Request = Request(verb: bytes, path: bytes, query: bytes, version: bytes, headers: seq<Header>, body: bytes)

  /** A feed ends needing more, with a request, with an error, or with an exception. */
  datatype Outcome = NeedMore | Ok | Error | Thrown

  datatype Core = Core(state: State, req: Request, contentLength: nat)

  /** `std::stoul`; None when it throws. */
  type Stoul = bytes -> Option<nat>

  const START := Core(Method, Request([], [], [], [], [], []), 0)

  // ---- Searching ----

  /** `find(c, from)`. */
  function Find(s: bytes, c: byte, from: nat): (r: Option<nat>)
    ensures r.Some? ==> from <= r.value < |s| && s[r.value] == c && forall i :: from <= i < r.value ==> s[i] != c
    ensures r.None? ==> forall i :: from <= i < |s| ==> s[i] != c
    decreases |s| - from
  {
    if from >= |s| then None else if s[from] == c then Some(from) else Find(s, c, from + 1)
  }

  predicate CrlfAt(s: bytes, i: nat) {
    i + 1 < |s| && s[i] == CR && s[i + 1] == LF
  }

  /** `find("\r\n")`. */
  function FindCrlf(s: bytes, from: nat): (r: Option<nat>)
    ensures r.Some? ==> from <= r.value && CrlfAt(s, r.value) && forall i :: from <= i < r.value ==> !CrlfAt(s, i)
    ensures r.None? ==> forall i :: from <= i ==> !CrlfAt(s, i)
    decreases |s| - from
  {
    if from + 1 >= |s| then None else if CrlfAt(s, from) then Some(from) else FindCrlf(s, from + 1)
  }

  // ---- One line ----

  datatype Split = Split(verb: bytes, target: bytes, version: bytes)

  /** The parts of a request line; where a space is missing, `npos + 1` wraps to 0 and `substr` takes the whole line. */
  function SplitLine(line: bytes): Split {
    var sp1 := Find(line, SPACE, 0);
    if sp1.None? then Split(line, line, line)
    else
      var sp2 := Find(line, SPACE, sp1.value + 1);
      if sp2.None? then Split(line[..sp1.value], line[sp1.value + 1..], line)
      else Split(line[..sp1.value], line[sp1.value + 1..sp2.value], line[sp2.value + 1..])
  }

  /** Path and query; without a question mark the query is left as it was. */
  function SplitTarget(target: bytes, query: bytes): (bytes, bytes) {
    var q := Find(target, QUESTION, 0);
    if q.None? then (target, query) else (target[..q.value], target[q.value + 1..])
  }

  function RequestLine(c: Core, line: bytes): Core {
    var s := SplitLine(line);
    var (path, query) := SplitTarget(s.target, c.req.query);
    c.(state := HeaderName, req := c.req.(verb := s.verb, path := path, query := query, version := s.version))
  }

  function HeaderLine(stoul: Stoul, c: Core, line: bytes): (Core, Outcome) {
    if line == [] then
      if c.contentLength > 0 then (c.(state := Body), NeedMore) else (c.(state := Done), Ok)
    else
      var colon := Find(line, COLON, 0);
      if colon.None? then (c, Error)
      else if colon.value + 2 > |line| then (c, Thrown)
      else
        var h := Header(line[..colon.value], line[colon.value + 2..]);
        var c' := c.(req := c.req.(headers := c.req.headers + [h]));
        if h.name != CONTENT_LENGTH then (c', NeedMore)
        else
          match stoul(h.value)
          case None => (c', Thrown)
          case Some(n) => (c'.(contentLength := n), NeedMore)
  }

  function OnLine(stoul: Stoul, c: Core, line: bytes): (Core, Outcome) {
    match c.state
    case Method => (RequestLine(c, line), NeedMore)
    case HeaderName => HeaderLine(stoul, c, line)
    case Body => (c, NeedMore)
    case Done => (c, NeedMore)
  }

  /** A line that does not settle the request neither finishes the parser nor restarts a finished one. */
  lemma LineGoesOn(stoul: Stoul, c: Core, line: bytes)
    ensures OnLine(stoul, c, line).1 == NeedMore ==> (OnLine(stoul, c, line).0.state == Done <==> c.state == Done)
    ensures c.state == Done ==> OnLine(stoul, c, line) == (c, NeedMore)
  {
  }

  // ---- A buffer ----

  datatype Driven = Driven(core: Core, outcome: Outcome, rest: bytes)

  /** What the loop of `feed` makes of a buffer. */
  function Drive(stoul: Stoul, c: Core, buf: bytes): Driven
    decreases |buf|
  {
    if |buf| == 0 then Driven(c, if c.state == Done then Ok else NeedMore, [])
    else if c.state == Body then
      if |buf| >= c.contentLength
      then Driven(c.(state := Done, req := c.req.(body := buf[..c.contentLength])), Ok, buf)
      else Driven(c, NeedMore, buf)
    else
      match FindCrlf(buf, 0)
      case None => Driven(c, NeedMore, buf)
      case Some(e) =>
        var (c', o) := OnLine(stoul, c, buf[..e]);
        if o != NeedMore then Driven(c', o, buf[e + 2..]) else Drive(stoul, c', buf[e + 2..])
  }

  lemma DriveNothing(stoul: Stoul, c: Core, buf: bytes)
    requires |buf| == 0
    ensures Drive(stoul, c, buf) == Driven(c, if c.state == Done then Ok else NeedMore, [])
  {
  }

  lemma DriveStep(stoul: Stoul, c: Core, buf: bytes)
    requires |buf| > 0
    ensures c.state == Body ==>
              Drive(stoul, c, buf) ==
              if |buf| >= c.contentLength
              then Driven(c.(state := Done, req := c.req.(body := buf[..c.contentLength])), Ok, buf)
              else Driven(c, NeedMore, buf)
    ensures c.state != Body && FindCrlf(buf, 0).None? ==> Drive(stoul, c, buf) == Driven(c, NeedMore, buf)
    ensures c.state != Body && FindCrlf(buf, 0).Some? ==>
              var e := FindCrlf(buf, 0).value;
              var (c', o) := OnLine(stoul, c, buf[..e]);
              Drive(stoul, c, buf) ==
              if o != NeedMore then Driven(c', o, buf[e + 2..]) else Drive(stoul, c', buf[e + 2..])
  {
    hide OnLine, FindCrlf;
  }

  lemma CrlfKept(a: bytes, b: bytes, e: nat)
    requires FindCrlf(a, 0) == Some(e)
    ensures FindCrlf(a + b, 0) == Some(e)
  {
    hide FindCrlf;
    assert CrlfAt(a, e) && CrlfAt(a + b, e);
    forall i | 0 <= i < e
      ensures !CrlfAt(a + b, i)
    {
      assert !CrlfAt(a, i);
    }
  }

  /** Parsing a longer buffer is parsing the first part and resuming on what it left. */
  lemma {:induction false} DriveResumes(stoul: Stoul, c: Core, a: bytes, b: bytes)
    ensures var d := Drive(stoul, c, a);
            var w := Drive(stoul, c, a + b);
            if d.outcome == NeedMore then w == Drive(stoul, d.core, d.rest + b)
            else c.state != Done ==> w.core == d.core && w.outcome == d.outcome
    decreases |a|
  {
    hide OnLine, FindCrlf;
    if |a| == 0 {
      assert a + b == [] + b;
    } else if c.state == Body {
      if |a| >= c.contentLength { assert (a + b)[..c.contentLength] == a[..c.contentLength]; }
    } else {
      match FindCrlf(a, 0)
      case None =>
      case Some(e) =>
        CrlfKept(a, b, e);
        assert (a + b)[..e] == a[..e] && (a + b)[e + 2..] == a[e + 2..] + b;
        var (c', o) := OnLine(stoul, c, a[..e]);
        LineGoesOn(stoul, c, a[..e]);
        if o == NeedMore { DriveResumes(stoul, c', a[e + 2..], b); }
    }
  }

  // ---- Streams of feeds ----

  function Concat(chunks: seq<bytes>): bytes {
    if |chunks| == 0 then [] else chunks[0] + Concat(chunks[1..])
  }

  /** Feeding chunk after chunk until the first outcome other than NeedMore. */
  function FeedAll(stoul: Stoul, c: Core, buffer: bytes, chunks: seq<bytes>): (Core, Outcome)
    decreases |chunks|
  {
    if |chunks| == 0 then (c, NeedMore)
    else
      var d := Drive(stoul, c, buffer + chunks[0]);
      if d.outcome != NeedMore then (d.core, d.outcome) else FeedAll(stoul, d.core, d.rest, chunks[1..])
  }

  /** A parser between feeds has consumed everything it can. */
  ghost predicate Settled(stoul: Stoul, c: Core, buffer: bytes) {
    Drive(stoul, c, buffer) == Driven(c, NeedMore, buffer)
  }

  lemma {:induction false} DriveSettles(stoul: Stoul, c: Core, a: bytes)
    requires Drive(stoul, c, a).outcome == NeedMore
    ensures Settled(stoul, Drive(stoul, c, a).core, Drive(stoul, c, a).rest)
    ensures c.state != Done ==> Drive(stoul, c, a).core.state != Done
    decreases |a|
  {
    hide OnLine, FindCrlf;
    if |a| > 0 && c.state != Body {
      match FindCrlf(a, 0)
      case None =>
      case Some(e) =>
        LineGoesOn(stoul, c, a[..e]);
        DriveSettles(stoul, OnLine(stoul, c, a[..e]).0, a[e + 2..]);
    }
  }

  lemma {:induction false} ChunksFromSettled(stoul: Stoul, c: Core, buffer: bytes, chunks: seq<bytes>)
    requires Settled(stoul, c, buffer) && c.state != Done
    ensures var w := Drive(stoul, c, buffer + Concat(chunks));
            FeedAll(stoul, c, buffer, chunks) == (w.core, w.outcome)
    decreases |chunks|
  {
    hide Drive;
    if |chunks| == 0 {
      assert buffer + Concat(chunks) == buffer;
    } else {
      var a, b := buffer + chunks[0], Concat(chunks[1..]);
      assert buffer + Concat(chunks) == a + b;
      var d := Drive(stoul, c, a);
      DriveResumes(stoul, c, a, b);
      if d.outcome == NeedMore {
        DriveSettles(stoul, c, a);
        ChunksFromSettled(stoul, d.core, d.rest, chunks[1..]);
      }
    }
  }

  /** However a byte string is split into feeds, outcome, request and body are those of a single feed. */
  lemma ChunkingIsInvisible(stoul: Stoul, chunks: seq<bytes>)
    ensures var w := Drive(stoul, START, Concat(chunks));
            FeedAll(stoul, START, [], chunks) == (w.core, w.outcome)
  {
    ChunksFromSettled(stoul, START, [], chunks);
    assert [] + Concat(chunks) == Concat(chunks);
  }

  predicate EndsLine(buf: bytes) {
    |buf| == 0 || (|buf| >= 2 && CrlfAt(buf, |buf| - 2))
  }

  /** A finished parser keeps its request, and answers Ok again exactly when what it is fed ends with a line. */
  lemma {:induction false} FinishedParser(stoul: Stoul, c: Core, buf: bytes)
    requires c.state == Done
    ensures Drive(stoul, c, buf).core == c
    ensures Drive(stoul, c, buf).outcome == if EndsLine(buf) then Ok else NeedMore
    decreases |buf|
  {
    hide FindCrlf;
    if |buf| > 0 {
      match FindCrlf(buf, 0)
      case None =>
      case Some(e) =>
        FinishedParser(stoul, c, buf[e + 2..]);
        assert |buf| > e + 3 ==> (CrlfAt(buf[e + 2..], |buf| - e - 4) <==> CrlfAt(buf, |buf| - 2));
    }
  }

  // ---- Requests as text ----

  const CRLF: bytes := [CR, LF]

  function Target(r: Request): bytes {
    if r.query == [] then r.path else r.path + [QUESTION] + r.query
  }

  function FirstLine(r: Request): bytes {
    r.verb + [SPACE] + Target(r) + [SPACE] + r.version
  }

  function LineOf(h: Header): bytes {
    h.name + [COLON, SPACE] + h.value
  }

  function HeaderText(hs: seq<Header>): bytes {
    if |hs| == 0 then CRLF else LineOf(hs[0]) + CRLF + HeaderText(hs[1..])
  }

  function Text(r: Request): bytes {
    FirstLine(r) + CRLF + HeaderText(r.headers) + r.body
  }

  predicate Free(s: bytes, c: byte) {
    forall i :: 0 <= i < |s| ==> s[i] != c
  }

  ghost predicate NoCrlf(s: bytes) {
    forall i :: 0 <= i ==> !CrlfAt(s, i)
  }

  /** Delimiters do not occur inside the parts they delimit. */
  ghost predicate Delimited(r: Request) {
    && Free(r.verb, SPACE) && Free(r.path, SPACE) && Free(r.path, QUESTION) && Free(r.query, SPACE)
    && NoCrlf(FirstLine(r))
    && (forall h :: h in r.headers ==> Free(h.name, COLON) && NoCrlf(LineOf(h)))
  }

  /** Content-Length headers state the body's length, and a body has one. */
  predicate LengthDeclared(stoul: Stoul, r: Request) {
    && (forall h :: h in r.headers && h.name == CONTENT_LENGTH ==> stoul(h.value) == Some(|r.body|))
    && (r.body != [] ==> exists h :: h in r.headers && h.name == CONTENT_LENGTH)
  }

  lemma LineFound(line: bytes, rest: bytes)
    requires NoCrlf(line)
    ensures FindCrlf(line + CRLF + rest, 0) == Some(|line|)
  {
    hide FindCrlf;
    var s := line + CRLF + rest;
    assert CrlfAt(s, |line|);
    forall i | 0 <= i < |line|
      ensures !CrlfAt(s, i)
    {
      assert !CrlfAt(line, i);
    }
  }

  lemma DriveLine(stoul: Stoul, c: Core, line: bytes, rest: bytes)
    requires NoCrlf(line) && c.state != Body
    ensures var (c', o) := OnLine(stoul, c, line);
            Drive(stoul, c, line + CRLF + rest) == if o != NeedMore then Driven(c', o, rest) else Drive(stoul, c', rest)
  {
    hide OnLine, FindCrlf;
    var s := line + CRLF + rest;
    LineFound(line, rest);
    assert s[..|line|] == line && s[|line| + 2..] == rest;
  }

  lemma FindFirst(a: bytes, c: byte, b: bytes)
    requires Free(a, c)
    ensures Find(a + [c] + b, c, 0) == Some(|a|)
  {
    hide Find;
    var s := a + [c] + b;
    assert s[|a|] == c;
  }

  lemma FindNone(a: bytes, c: byte)
    requires Free(a, c)
    ensures Find(a, c, 0) == None
  {
    hide Find;
  }

  lemma FindSecond(a: bytes, c: byte, b: bytes, d: bytes)
    requires Free(b, c)
    ensures Find(a + [c] + b + [c] + d, c, |a| + 1) == Some(|a| + 1 + |b|)
  {
    hide Find;
    var s := a + [c] + b + [c] + d;
    assert s[|a| + 1 + |b|] == c;
    assert forall i :: 0 <= i < |b| ==> s[|a| + 1 + i] == b[i];
  }

  lemma LineSplits(verb: bytes, target: bytes, version: bytes)
    requires Free(verb, SPACE) && Free(target, SPACE)
    ensures SplitLine(verb + [SPACE] + target + [SPACE] + version) == Split(verb, target, version)
  {
    hide Find;
    var line, n := verb + [SPACE] + target + [SPACE] + version, |verb|;
    assert line == verb + [SPACE] + (target + [SPACE] + version);
    FindFirst(verb, SPACE, target + [SPACE] + version);
    FindSecond(verb, SPACE, target, version);
    assert line[..n] == verb && line[n + 1..n + 1 + |target|] == target && line[n + 1 + |target| + 1..] == version;
  }

  lemma TargetSplits(r: Request)
    requires Free(r.path, QUESTION)
    ensures SplitTarget(Target(r), []) == (r.path, r.query)
  {
    hide Find;
    var t := Target(r);
    if r.query == [] {
      FindNone(t, QUESTION);
    } else {
      FindFirst(r.path, QUESTION, r.query);
      assert t[..|r.path|] == r.path && t[|r.path| + 1..] == r.query;
    }
  }

  lemma RequestLineParses(r: Request)
    requires Delimited(r)
    ensures RequestLine(START, FirstLine(r))
         == Core(HeaderName, Request(r.verb, r.path, r.query, r.version, [], []), 0)
  {
    hide SplitLine, SplitTarget, Target;
    TargetFree(r);
    LineSplits(r.verb, Target(r), r.version);
    TargetSplits(r);
  }

  lemma TargetFree(r: Request)
    requires Delimited(r)
    ensures Free(Target(r), SPACE)
  {
  }

  lemma HeaderLineParses(stoul: Stoul, c: Core, h: Header)
    requires Free(h.name, COLON) && (h.name == CONTENT_LENGTH ==> stoul(h.value).Some?)
    ensures var c' := c.(req := c.req.(headers := c.req.headers + [h]));
            var c'' := if h.name == CONTENT_LENGTH then c'.(contentLength := stoul(h.value).value) else c';
            HeaderLine(stoul, c, LineOf(h)) == (c'', NeedMore)
  {
    hide Find;
    var line := LineOf(h);
    assert line == h.name + [COLON] + ([SPACE] + h.value);
    FindFirst(h.name, COLON, [SPACE] + h.value);
    assert line[..|h.name|] == h.name && line[|h.name| + 2..] == h.value;
  }

  /** The header block leads to the body, or ends the request when there is none. */
  lemma {:induction false} HeadersParse(stoul: Stoul, r: Request, c: Core, hs: seq<Header>, rest: bytes)
    requires Delimited(r) && LengthDeclared(stoul, r) && c.state == HeaderName
    requires c.req == r.(headers := c.req.headers, body := []) && c.req.headers + hs == r.headers
    requires c.contentLength == |r.body| || c.contentLength == 0
    requires c.contentLength == 0 && r.body != [] ==> exists h :: h in hs && h.name == CONTENT_LENGTH
    ensures Drive(stoul, c, HeaderText(hs) + r.body + rest).outcome == Ok
    ensures Drive(stoul, c, HeaderText(hs) + r.body + rest).core.req == r
    decreases |hs|
  {
    hide OnLine, Drive, LengthDeclared, Delimited;
    if |hs| == 0 {
      EmptyLine(stoul, c, r.body + rest);
      assert HeaderText(hs) + r.body + rest == [] + CRLF + (r.body + rest);
      assert c.req.headers + hs == c.req.headers;
      BodyParses(stoul, c.(state := Body), r.body, rest);
    } else {
      var h := hs[0];
      assert c.req.headers + hs == (c.req.headers + [h]) + hs[1..];
      assert h in r.headers by { assert r.headers[|c.req.headers|] == h; }
      HeaderFits(stoul, r, h);
      assert HeaderText(hs) + r.body + rest == LineOf(h) + CRLF + (HeaderText(hs[1..]) + r.body + rest);
      DriveLine(stoul, c, LineOf(h), HeaderText(hs[1..]) + r.body + rest);
      HeaderLineParses(stoul, c, h);
      OnHeader(stoul, c, LineOf(h));
      var c' := HeaderLine(stoul, c, LineOf(h)).0;
      assert c.contentLength == 0 && r.body != [] && h.name != CONTENT_LENGTH ==>
        exists g :: g in hs[1..] && g.name == CONTENT_LENGTH by {
        assert hs == [h] + hs[1..];
      }
      HeadersParse(stoul, r, c', hs[1..], rest);
    }
  }

  lemma HeaderFits(stoul: Stoul, r: Request, h: Header)
    requires Delimited(r) && LengthDeclared(stoul, r) && h in r.headers
    ensures Free(h.name, COLON) && NoCrlf(LineOf(h))
    ensures h.name == CONTENT_LENGTH ==> stoul(h.value) == Some(|r.body|)
  {
  }

  lemma OnHeader(stoul: Stoul, c: Core, line: bytes)
    requires c.state == HeaderName
    ensures OnLine(stoul, c, line) == HeaderLine(stoul, c, line)
  {
  }

  lemma EmptyLine(stoul: Stoul, c: Core, rest: bytes)
    requires c.state == HeaderName
    ensures Drive(stoul, c, [] + CRLF + rest)
         == if c.contentLength > 0 then Drive(stoul, c.(state := Body), rest) else Driven(c.(state := Done), Ok, rest)
  {
    hide Drive;
    DriveLine(stoul, c, [], rest);
  }

  lemma BodyParses(stoul: Stoul, c: Core, body: bytes, rest: bytes)
    requires c.state == Body && (c.contentLength == |body| || c.contentLength == 0)
    ensures c.contentLength > 0 ==>
              Drive(stoul, c, body + rest) == Driven(c.(state := Done, req := c.req.(body := body)), Ok, body + rest)
  {
    if c.contentLength > 0 { assert (body + rest)[..|body|] == body; }
  }

  /** A delimited request, sent as text in any chunking and followed by anything, is parsed back exactly. */
  lemma TextParses(stoul: Stoul, r: Request, rest: bytes, chunks: seq<bytes>)
    requires Delimited(r) && LengthDeclared(stoul, r) && Concat(chunks) == Text(r) + rest
    ensures FeedAll(stoul, START, [], chunks).1 == Ok && FeedAll(stoul, START, [], chunks).0.req == r
  {
    hide Drive, FeedAll, RequestLine, Delimited, FirstLine, HeaderText;
    ChunkingIsInvisible(stoul, chunks);
    var tail := HeaderText(r.headers) + r.body + rest;
    assert Text(r) + rest == FirstLine(r) + CRLF + tail;
    LineFits(r);
    DriveLine(stoul, START, FirstLine(r), tail);
    RequestLineParses(r);
    var c := Core(HeaderName, Request(r.verb, r.path, r.query, r.version, [], []), 0);
    assert [] + r.headers == r.headers;
    HeadersParse(stoul, r, c, r.headers, rest);
  }

  lemma LineFits(r: Request)
    requires Delimited(r)
    ensures NoCrlf(FirstLine(r))
  {
  }

  // ---- The object ----

  class Parser {
    var core: Core
    var buffer: bytes

    constructor ()
      ensures core == START && buffer == []
    {
      core, buffer := START, [];
    }

    /** `feed`: the position loop over the buffer. */
    method Feed(stoul: Stoul, data: bytes) returns (outcome: Outcome)
      modifies this
      ensures var d := Drive(stoul, old(core), old(buffer) + data);
              && core == d.core && outcome == d.outcome
              && buffer == if outcome == NeedMore || old(core).state == Done then d.rest else old(buffer) + data
    {
      hide OnLine, FindCrlf, Drive;
      buffer := buffer + data;
      ghost var whole := Drive(stoul, core, buffer);
      var pos := 0;
      assert buffer[0..] == buffer;
      while pos < |buffer|
        invariant 0 <= pos <= |buffer| && buffer == old(buffer) + data
        invariant Drive(stoul, core, buffer[pos..]) == whole && (core.state == Done <==> old(core).state == Done)
      {
        ghost var b := buffer[pos..];
        DriveStep(stoul, core, b);
        if core.state == Body {
          if |buffer| - pos >= core.contentLength {
            assert b[..core.contentLength] == buffer[pos..pos + core.contentLength];
            core := core.(state := Done, req := core.req.(body := buffer[pos..pos + core.contentLength]));
            return Ok;
          }
          buffer := buffer[pos..];
          return NeedMore;
        }
        var lineEnd := FindCrlf(buffer[pos..], 0);
        if lineEnd.None? {
          buffer := buffer[pos..];
          return NeedMore;
        }
        var e := lineEnd.value;
        var line := buffer[pos..pos + e];
        assert b[..e] == line && b[e + 2..] == buffer[pos + e + 2..];
        LineGoesOn(stoul, core, line);
        var (c', o) := OnLine(stoul, core, line);
        core := c';
        pos := pos + e + 2;
        if o != NeedMore { return o; }
      }
      buffer := buffer[pos..];
      DriveNothing(stoul, core, buffer);
      return if core.state == Done then Ok else NeedMore;
    }
  }
}
