/**
  Reading requests from a socket that delivers the byte stream in arbitrary pieces.
  The end of the pieces stands for a closed, failed or cancelled connection.
 */
module RtspReader {
  import opened Wrappers
  import opened Texts
  import opened RtspText

  const CHUNK: nat := 4096
  const LIMIT: nat := 65536

  // ---------------------------------------------------------------------
  // On values
  // ---------------------------------------------------------------------

  /** Bytes received but not consumed, and the pieces the socket will still deliver. */
  datatype Conn = Conn(buffer: string, chunks: seq<string>)

  function Flatten(chunks: seq<string>): string {
    if chunks == [] then "" else chunks[0] + Flatten(chunks[1..])
  }

  /** Everything not yet consumed. */
  function Stream(c: Conn): string {
    c.buffer + Flatten(c.chunks)
  }

  predicate Delivered(chunks: seq<string>) {
    forall i :: 0 <= i < |chunks| ==> 1 <= |chunks[i]| <= CHUNK
  }

  function Receive(c: Conn): Conn
    requires c.chunks != []
  {
    Conn(c.buffer + c.chunks[0], c.chunks[1..])
  }

  /** Receives until the header section is complete; too much without it is an error. */
  function AwaitHeaders(c: Conn): Option<Conn>
    decreases |c.chunks|
  {
    if Find(c.buffer, BLANK).Some? then Some(c)
    else if c.chunks == [] then None
    else if |Receive(c).buffer| > LIMIT then None
    else AwaitHeaders(Receive(c))
  }

  function AwaitBytes(c: Conn, need: nat): Option<Conn>
    decreases |c.chunks|
  {
    if |c.buffer| >= need then Some(c)
    else if c.chunks == [] then None
    else AwaitBytes(Receive(c), need)
  }

  /** One call of `read`. */
  function ReadOne(c: Conn): Option<(Request, Conn)> {
    match AwaitHeaders(c)
    case None => None
    case Some(d) =>
      var end := Find(d.buffer, BLANK);
      if end.None? then None
      else
        match Head(d.buffer[..end.value + 4])
        case None => None
        case Some(head) =>
          var need := end.value + 4 + ContentLength(head.headers);
          match AwaitBytes(d, need)
          case None => None
          case Some(e) =>
            if need > |e.buffer| then None
            else Some((head.(body := e.buffer[end.value + 4..need]), Conn(e.buffer[need..], e.chunks)))
  }

  /** The first request of a byte stream, and the bytes after it: no pieces, no buffer. */
  function FirstRequest(s: string): Option<(Request, string)> {
    match Find(s, BLANK)
    case None => None
    case Some(i) =>
      match Head(s[..i + 4])
      case None => None
      case Some(head) =>
        var need := i + 4 + ContentLength(head.headers);
        if need > |s| then None else Some((head.(body := s[i + 4..need]), s[need..]))
  }

  function Requests(s: string): seq<Request>
    decreases |s|
  {
    match FirstRequest(s)
    case None => []
    case Some((r, rest)) => if |rest| < |s| then [r] + Requests(rest) else [r]
  }

  /** The section size up to which no chunking of any stream trips the limit. */
  const SAFE_HEADER: nat := 61441

  /** No header section of a request in the stream can trip the limit. */
  predicate HeadersFit(s: string)
    decreases |s|
  {
    match FirstRequest(s)
    case None => true
    case Some((_, rest)) => FirstHeaderFits(s) && (|rest| < |s| ==> HeadersFit(rest))
  }

  /** The first section is short enough, or what the stream still holds is. */
  predicate FirstHeaderFits(s: string) {
    Find(s, BLANK).Some? ==> Find(s, BLANK).value + 4 <= SAFE_HEADER || |s| <= LIMIT
  }

  // ---------------------------------------------------------------------
  // Nothing is lost
  // ---------------------------------------------------------------------

  lemma ReceiveKeeps(c: Conn)
    requires c.chunks != []
    ensures Stream(Receive(c)) == Stream(c)
  {}

  lemma {:induction false} AwaitHeadersKeeps(c: Conn)
    requires AwaitHeaders(c).Some?
    ensures Stream(AwaitHeaders(c).value) == Stream(c)
    ensures Find(AwaitHeaders(c).value.buffer, BLANK).Some?
    decreases |c.chunks|
  {
    if Find(c.buffer, BLANK).None? {
      ReceiveKeeps(c);
      AwaitHeadersKeeps(Receive(c));
    }
  }

  lemma {:induction false} AwaitBytesKeeps(c: Conn, need: nat)
    ensures AwaitBytes(c, need).Some? ==>
              Stream(AwaitBytes(c, need).value) == Stream(c) && |AwaitBytes(c, need).value.buffer| >= need
    ensures AwaitBytes(c, need).Some? <==> need <= |Stream(c)|
    decreases |c.chunks|
  {
    if |c.buffer| < need && c.chunks != [] {
      ReceiveKeeps(c);
      AwaitBytesKeeps(Receive(c), need);
    }
  }

  /** Main result on conservation: what was consumed, the buffer and the unread pieces are always the stream. */
  lemma ReadConserves(c: Conn)
    requires ReadOne(c).Some?
    ensures var (_, d) := ReadOne(c).value;
            && |Stream(d)| < |Stream(c)|
            && Stream(c) == Stream(c)[..|Stream(c)| - |Stream(d)|] + Stream(d)
  {
    hide Head, ContentLength, Find;
    AwaitHeadersKeeps(c);
    var d := AwaitHeaders(c).value;
    var i := Find(d.buffer, BLANK).value;
    var need := i + 4 + ContentLength(Head(d.buffer[..i + 4]).value.headers);
    AwaitBytesKeeps(d, need);
    var e := AwaitBytes(d, need).value;
    Cut(e, need);
  }

  lemma Cut(e: Conn, need: nat)
    requires need <= |e.buffer|
    ensures Stream(Conn(e.buffer[need..], e.chunks)) == Stream(e)[need..]
    ensures e.buffer[..need] == Stream(e)[..need]
  {}

  // ---------------------------------------------------------------------
  // Independence of the pieces
  // ---------------------------------------------------------------------

  /** While the header section is incomplete, one more piece stays within the limit. */
  lemma WithinLimit(c: Conn)
    requires c.chunks != [] && Delivered(c.chunks) && Find(c.buffer, BLANK).None?
    requires Find(Stream(c), BLANK).Some? && FirstHeaderFits(Stream(c))
    ensures |Receive(c).buffer| <= LIMIT
  {
    FindEndsLater(c.buffer, Flatten(c.chunks), BLANK);
  }

  lemma {:induction false} HeadersArrive(c: Conn)
    requires Delivered(c.chunks) && FirstHeaderFits(Stream(c))
    ensures AwaitHeaders(c).Some? <==> Find(Stream(c), BLANK).Some?
    ensures AwaitHeaders(c).Some? ==>
              Find(AwaitHeaders(c).value.buffer, BLANK) == Find(Stream(c), BLANK)
              && Delivered(AwaitHeaders(c).value.chunks)
    decreases |c.chunks|
  {
    hide Find, FirstHeaderFits;
    if Find(c.buffer, BLANK).Some? {
      FindAppend(c.buffer, Flatten(c.chunks), BLANK);
    } else if c.chunks == [] {
      assert Stream(c) == c.buffer;
    } else {
      ReceiveKeeps(c);
      HeadersArrive(Receive(c));
      if Find(Stream(c), BLANK).Some? {
        WithinLimit(c);
      }
    }
  }

  lemma {:induction false} BytesArrive(c: Conn, need: nat)
    requires Delivered(c.chunks) && AwaitBytes(c, need).Some?
    ensures Delivered(AwaitBytes(c, need).value.chunks)
    decreases |c.chunks|
  {
    if |c.buffer| < need {
      BytesArrive(Receive(c), need);
    }
  }

  lemma FoundInside(s: string)
    requires Find(s, BLANK).Some?
    ensures Find(s, BLANK).value + 4 <= |s|
  {}

  /** The header section at the front of the buffer is that of the stream. */
  lemma SectionOfStream(c: Conn)
    requires AwaitHeaders(c).Some?
    ensures var d := AwaitHeaders(c).value;
            && Stream(d) == Stream(c)
            && Find(d.buffer, BLANK).Some? && Find(Stream(c), BLANK) == Find(d.buffer, BLANK)
            && Find(d.buffer, BLANK).value + 4 <= |d.buffer|
            && d.buffer[..Find(d.buffer, BLANK).value + 4] == Stream(c)[..Find(d.buffer, BLANK).value + 4]
  {
    hide Find;
    AwaitHeadersKeeps(c);
    var d := AwaitHeaders(c).value;
    FindAppend(d.buffer, Flatten(d.chunks), BLANK);
    FoundInside(d.buffer);
    Prefix(d, Find(d.buffer, BLANK).value + 4);
  }

  /** What a reader that gets past the header section returns is the first request of the stream. */
  lemma ReadOnePastHeaders(c: Conn)
    requires AwaitHeaders(c).Some?
    ensures match FirstRequest(Stream(c))
            case None => ReadOne(c).None?
            case Some((r, rest)) => ReadOne(c).Some? && ReadOne(c).value.0 == r && Stream(ReadOne(c).value.1) == rest
    ensures ReadOne(c).Some? && Delivered(AwaitHeaders(c).value.chunks) ==> Delivered(ReadOne(c).value.1.chunks)
  {
    hide Head, ContentLength, Find, Delivered, AwaitHeaders, AwaitBytes, Stream;
    SectionOfStream(c);
    var d := AwaitHeaders(c).value;
    var i := Find(d.buffer, BLANK).value;
    if Head(d.buffer[..i + 4]).Some? {
      BodyArrives(d, i + 4, i + 4 + ContentLength(Head(d.buffer[..i + 4]).value.headers));
    }
  }

  /** One request: the same for every way the stream is cut into pieces. */
  lemma ReadOneIsFirst(c: Conn)
    requires Delivered(c.chunks) && FirstHeaderFits(Stream(c))
    ensures match FirstRequest(Stream(c))
            case None => ReadOne(c).None?
            case Some((r, rest)) =>
              ReadOne(c).Some? && ReadOne(c).value.0 == r && Stream(ReadOne(c).value.1) == rest
              && Delivered(ReadOne(c).value.1.chunks)
  {
    hide Head, ContentLength, Find, FirstHeaderFits, Delivered, AwaitHeaders, AwaitBytes, Stream;
    HeadersArrive(c);
    if AwaitHeaders(c).Some? {
      ReadOnePastHeaders(c);
    }
  }

  /** A stream without a first request yields none, however it is cut. */
  lemma NothingToRead(c: Conn)
    requires FirstRequest(Stream(c)).None?
    ensures ReadOne(c).None?
  {
    hide FirstRequest, Stream, Head, ContentLength, Find, AwaitBytes;
    if AwaitHeaders(c).Some? {
      ReadOnePastHeaders(c);
    }
  }

  lemma Prefix(d: Conn, n: nat)
    requires n <= |d.buffer|
    ensures n <= |Stream(d)| && Stream(d)[..n] == d.buffer[..n]
  {}

  lemma BodyArrives(d: Conn, start: nat, need: nat)
    requires start <= need
    ensures AwaitBytes(d, need).Some? <==> need <= |Stream(d)|
    ensures AwaitBytes(d, need).Some? ==>
              var e := AwaitBytes(d, need).value;
              && need <= |e.buffer| && (Delivered(d.chunks) ==> Delivered(e.chunks))
              && e.buffer[start..need] == Stream(d)[start..need]
              && Stream(Conn(e.buffer[need..], e.chunks)) == Stream(d)[need..]
  {
    AwaitBytesKeeps(d, need);
    if AwaitBytes(d, need).Some? {
      if Delivered(d.chunks) {
        BytesArrive(d, need);
      }
      var e := AwaitBytes(d, need).value;
      Cut(e, need);
      assert e.buffer[start..need] == e.buffer[..need][start..];
      assert Stream(d)[start..need] == Stream(d)[..need][start..];
    }
  }

  /** All requests a connection yields. */
  function ReadAll(c: Conn): seq<Request>
    decreases |Stream(c)|
  {
    match ReadOne(c)
    case None => []
    case Some((r, d)) =>
      ReadConserves(c);
      [r] + ReadAll(d)
  }

  /**
    Main result: when the header section of every request is at most 61441 bytes, or begins
    within the last 65536 of the stream, the requests read are those of the byte stream, however
    it is cut into pieces of 1 to 4096 bytes. `ChunksNeverMatter` shows that this is exact.
   */
  lemma {:induction false} RequestsIgnoreChunks(c: Conn)
    requires Delivered(c.chunks) && HeadersFit(Stream(c))
    ensures ReadAll(c) == Requests(Stream(c))
    decreases |Stream(c)|
  {
    hide FirstRequest, ReadOne, Stream, Delivered, FirstHeaderFits;
    if FirstRequest(Stream(c)).None? {
      NothingToRead(c);
    } else {
      ReadOneIsFirst(c);
      ReadConserves(c);
      RequestsIgnoreChunks(ReadOne(c).value.1);
    }
  }

  // ---------------------------------------------------------------------
  // The bound is exact
  // ---------------------------------------------------------------------

  function Singles(s: string): (r: seq<string>)
    ensures Delivered(r)
  {
    if s == "" then [] else [[s[0]]] + Singles(s[1..])
  }

  lemma {:induction false} FlattenConcat(a: seq<string>, b: seq<string>)
    ensures Flatten(a + b) == Flatten(a) + Flatten(b)
  {
    if a == [] {
      assert a + b == b;
    } else {
      assert (a + b)[1..] == a[1..] + b;
      FlattenConcat(a[1..], b);
      assert a[0] + (Flatten(a[1..]) + Flatten(b)) == a[0] + Flatten(a[1..]) + Flatten(b);
    }
  }

  lemma {:induction false} FlattenSingles(s: string)
    ensures Flatten(Singles(s)) == s
  {
    if s != "" {
      FlattenSingles(s[1..]);
      assert Singles(s)[1..] == Singles(s[1..]);
      assert s == [s[0]] + s[1..];
    }
  }

  lemma NotFoundEarlier(s: string, t: string, pat: string)
    requires Find(s + t, pat).None?
    ensures Find(s, pat).None?
  {
    if Find(s, pat).Some? {
      FindAppend(s, t, pat);
    }
  }

  /** Byte by byte up to the last byte but one, then a whole piece: the limit is tripped. */
  lemma {:induction false} Tripped(b: string, t: string, piece: string, more: seq<string>)
    requires Find(b + t, BLANK).None? && |b| + |t| + |piece| > LIMIT
    ensures AwaitHeaders(Conn(b, Singles(t) + ([piece] + more))).None?
    decreases |t|
  {
    hide Find;
    NotFoundEarlier(b, t, BLANK);
    var c := Conn(b, Singles(t) + ([piece] + more));
    if t == "" {
      assert Singles(t) + ([piece] + more) == [piece] + more;
    } else {
      assert b + [t[0]] + t[1..] == b + t;
      Tripped(b + [t[0]], t[1..], piece, more);
      assert Receive(c) == Conn(b + [t[0]], Singles(t[1..]) + ([piece] + more));
    }
  }

  /** Pieces that cut the stream at `i` and deliver as much as one piece holds next, up to `j`. */
  function Unlucky(s: string, i: nat, j: nat): seq<string>
    requires i < j <= |s|
  {
    Singles(s[..i]) + ([s[i..j]] + Singles(s[j..]))
  }

  lemma FlattenThree(a: seq<string>, p: string, z: seq<string>)
    ensures Flatten(a + ([p] + z)) == Flatten(a) + (p + Flatten(z))
  {
    FlattenConcat(a, [p] + z);
    assert ([p] + z)[1..] == z;
  }

  lemma CutInThree(s: string, i: nat, j: nat)
    requires i <= j <= |s|
    ensures s == s[..i] + (s[i..j] + s[j..])
  {}

  lemma UnluckyIsDelivered(s: string, i: nat, j: nat)
    requires i < j <= |s| && j - i <= CHUNK
    ensures Delivered(Unlucky(s, i, j)) && Flatten(Unlucky(s, i, j)) == s
  {
    hide Flatten, Singles;
    FlattenThree(Singles(s[..i]), s[i..j], Singles(s[j..]));
    FlattenSingles(s[..i]);
    FlattenSingles(s[j..]);
    CutInThree(s, i, j);
  }

  /** Every chunking of the stream gets the first header section through. */
  ghost predicate AlwaysAccepted(s: string) {
    forall chunks :: Delivered(chunks) && Flatten(chunks) == s ==> AwaitHeaders(Conn("", chunks)).Some?
  }

  lemma NotFoundBefore(s: string, k: nat)
    requires k <= |s| && Find(s, BLANK).Some? && k < Find(s, BLANK).value + 4
    ensures Find(s[..k], BLANK).None?
  {
    hide Find;
    assert s[..k] + s[k..] == s;
    if Find(s[..k], BLANK).Some? {
      FoundInside(s[..k]);
      FindAppend(s[..k], s[k..], BLANK);
    }
  }

  /** A section that does not fit trips the limit when it arrives byte by byte, and its last byte with a full piece. */
  lemma CutThatTrips(s: string) returns (chunks: seq<string>)
    requires Find(s, BLANK).Some? && !FirstHeaderFits(s)
    ensures Delivered(chunks) && Flatten(chunks) == s && AwaitHeaders(Conn("", chunks)).None?
  {
    hide Find, AwaitHeaders, Delivered, Singles;
    var n := Find(s, BLANK).value + 4;
    FoundInside(s);
    var i, j := n - 1, if n - 1 + CHUNK <= |s| then n - 1 + CHUNK else |s|;
    chunks := Unlucky(s, i, j);
    UnluckyIsDelivered(s, i, j);
    NotFoundBefore(s, i);
    assert "" + s[..i] == s[..i];
    Tripped("", s[..i], s[i..j], Singles(s[j..]));
  }

  /**
    The bound is exact: the first section gets through for every chunking if and only if it has
    at most 61441 bytes, or the whole stream has at most 65536.
   */
  lemma BoundIsExact(s: string)
    requires Find(s, BLANK).Some?
    ensures AlwaysAccepted(s) <==> Find(s, "\r\n\r\n").value + 4 <= 61441 || |s| <= 65536
  {
    hide Find, AwaitHeaders, Delivered, Singles;
    if FirstHeaderFits(s) {
      forall chunks | Delivered(chunks) && Flatten(chunks) == s
        ensures AwaitHeaders(Conn("", chunks)).Some?
      {
        assert Stream(Conn("", chunks)) == s;
        HeadersArrive(Conn("", chunks));
      }
    } else {
      var chunks := CutThatTrips(s);
    }
  }

  // ---------------------------------------------------------------------
  // Exactly when the pieces do not matter
  // ---------------------------------------------------------------------

  /** Byte by byte, the buffer ends where the header section ends. */
  lemma {:induction false} SinglesEndAtBlank(b: string, t: string, more: seq<string>)
    requires Find(b + t, BLANK) == Some(|b| + |t| - 4) && |b| + |t| >= 4
    requires AwaitHeaders(Conn(b, Singles(t) + more)).Some?
    ensures AwaitHeaders(Conn(b, Singles(t) + more)) == Some(Conn(b + t, more))
    decreases |t|
  {
    hide Find;
    var c := Conn(b, Singles(t) + more);
    if t == "" {
      assert b + t == b && Singles(t) + more == more;
    } else {
      NotFoundBefore(b + t, |b|);
      assert (b + t)[..|b|] == b;
      NextSingle(b, t, more);
      SinglesEndAtBlank(b + [t[0]], t[1..], more);
    }
  }

  lemma NextSingle(b: string, t: string, more: seq<string>)
    requires t != ""
    ensures Singles(t) + more != []
    ensures Receive(Conn(b, Singles(t) + more)) == Conn(b + [t[0]], Singles(t[1..]) + more)
    ensures b + [t[0]] + t[1..] == b + t
  {
    hide Singles;
    SinglesStep(t);
    ConsThen([t[0]], Singles(t[1..]), more);
    HeadAndTail(b, t);
  }

  lemma SinglesStep(t: string)
    requires t != ""
    ensures Singles(t) == [[t[0]]] + Singles(t[1..])
  {}

  lemma HeadAndTail(b: string, t: string)
    requires t != ""
    ensures b + [t[0]] + t[1..] == b + t
  {}

  lemma ConsThen(piece: string, rest: seq<string>, more: seq<string>)
    ensures var all := [piece] + rest + more;
            all != [] && all[0] == piece && all[1..] == rest + more
  {}

  /** Byte by byte, no more than is needed arrives. */
  lemma {:induction false} SinglesEndAtNeed(b: string, t: string, more: seq<string>)
    ensures AwaitBytes(Conn(b, Singles(t) + more), |b| + |t|) == Some(Conn(b + t, more))
    decreases |t|
  {
    if t == "" {
      assert b + t == b && Singles(t) + more == more;
    } else {
      NextSingle(b, t, more);
      SinglesEndAtNeed(b + [t[0]], t[1..], more);
    }
  }

  lemma {:induction false} SinglesConcat(a: string, b: string)
    ensures Singles(a + b) == Singles(a) + Singles(b)
  {
    if a == "" {
      assert a + b == b;
    } else {
      assert (a + b)[1..] == a[1..] + b;
      SinglesConcat(a[1..], b);
    }
  }

  lemma FlattenAfter(front: string, chunks: seq<string>)
    ensures Flatten(Singles(front) + chunks) == front + Flatten(chunks)
    ensures Delivered(chunks) ==> Delivered(Singles(front) + chunks)
  {
    FlattenConcat(Singles(front), chunks);
    FlattenSingles(front);
  }

  /** Where the header section and the body of the first request end. */
  lemma RequestParts(s: string) returns (k: nat, n: nat)
    requires FirstRequest(s).Some?
    ensures 4 <= k <= n <= |s| && Find(s, BLANK) == Some(k - 4)
    ensures Head(s[..k]).Some? && n == k + ContentLength(Head(s[..k]).value.headers)
    ensures FirstRequest(s).value.1 == s[n..]
  {
    hide Find, Head, ContentLength, Starts;
    k := Find(s, BLANK).value + 4;
    n := k + ContentLength(Head(s[..k]).value.headers);
  }

  /** A buffer that ends where the section ends, then where the body ends, is used up. */
  lemma ReadOneUsesUp(c: Conn, d: Conn, e: Conn, need: nat)
    requires AwaitHeaders(c) == Some(d) && |d.buffer| >= 4 && Find(d.buffer, BLANK) == Some(|d.buffer| - 4)
    requires Head(d.buffer).Some? && need == |d.buffer| + ContentLength(Head(d.buffer).value.headers)
    requires AwaitBytes(d, need) == Some(e) && |e.buffer| == need
    ensures ReadOne(c).Some? && ReadOne(c).value.1 == Conn("", e.chunks)
  {
    hide Find, Head, ContentLength, AwaitHeaders, AwaitBytes;
    assert d.buffer[..|d.buffer|] == d.buffer;
    assert e.buffer[need..] == "";
  }

  /** The first request of a stream, byte by byte, leaves nothing in the buffer. */
  lemma SinglesReadOne(s: string, more: seq<string>)
    requires FirstRequest(s).Some? && FirstHeaderFits(s) && Delivered(more) && Flatten(more) == FirstRequest(s).value.1
    ensures var (r, rest) := FirstRequest(s).value;
            ReadOne(Conn("", Singles(s[..|s| - |rest|]) + more)) == Some((r, Conn("", more)))
  {
    hide Find, Head, ContentLength, FirstRequest, FirstHeaderFits, ReadOne;
    hide AwaitHeaders, AwaitBytes, Flatten, Singles, Delivered;
    var k, n := RequestParts(s);
    var front, body := s[..k], s[k..n];
    var c, d := Conn("", Singles(s[..n]) + more), Conn(front, Singles(body) + more);
    assert s[..n] == front + body && s == s[..n] + FirstRequest(s).value.1;
    FlattenAfter(s[..n], more);
    assert Stream(c) == s;
    HeadersArrive(c);
    ReadOnePastHeaders(c);
    SinglesConcat(front, body);
    assert Singles(front) + Singles(body) + more == Singles(front) + d.chunks;
    FindInFront(s, k);
    assert "" + front == front;
    SinglesEndAtBlank("", front, d.chunks);
    SinglesEndAtNeed(front, body, more);
    ReadOneUsesUp(c, d, Conn(front + body, more), n);
  }

  /** The section alone holds the blank line where the stream does. */
  lemma FindInFront(s: string, k: nat)
    requires Find(s, BLANK).Some? && k == Find(s, BLANK).value + 4 && k <= |s|
    ensures Find(s[..k], BLANK) == Find(s, BLANK)
  {
    hide Find;
    assert s[..k] + s[k..] == s;
    if Find(s[..k], BLANK).None? {
      FindEndsLater(s[..k], s[k..], BLANK);
    } else {
      FindAppend(s[..k], s[k..], BLANK);
    }
  }

  /** Some way of cutting the stream loses a request whose header section does not fit. */
  lemma {:induction false} SomeCutLoses(s: string) returns (chunks: seq<string>)
    requires !HeadersFit(s)
    ensures Delivered(chunks) && Flatten(chunks) == s && ReadAll(Conn("", chunks)) != Requests(s)
    decreases |s|
  {
    hide Find, FirstRequest, FirstHeaderFits, ReadOne, ReadAll, Requests, HeadersFit;
    hide AwaitHeaders, Flatten, Singles, Delivered;
    MisfitHasRequest(s);
    var k, n := RequestParts(s);
    RequestsStep(s);
    if FirstHeaderFits(s) {
      var rest := FirstRequest(s).value.1;
      var more := SomeCutLoses(rest);
      var front := s[..|s| - |rest|];
      chunks := Singles(front) + more;
      FlattenAfter(front, more);
      FrontAndRest(s, |s| - |rest|);
      SinglesReadOne(s, more);
      ReadAllStep(Conn("", chunks));
      SameHead(FirstRequest(s).value.0, ReadAll(Conn("", more)), Requests(rest));
    } else {
      chunks := CutThatTrips(s);
      StuckReadsNothing(Conn("", chunks));
    }
  }

  lemma FrontAndRest(s: string, n: nat)
    requires n <= |s|
    ensures s[..n] + s[n..] == s
  {}

  lemma SameHead(r: Request, a: seq<Request>, b: seq<Request>)
    requires a != b
    ensures [r] + a != [r] + b
  {
    assert ([r] + a)[1..] == a && ([r] + b)[1..] == b;
  }

  lemma MisfitHasRequest(s: string)
    requires !HeadersFit(s)
    ensures FirstRequest(s).Some?
  {
    hide FirstRequest;
  }

  lemma RequestsStep(s: string)
    requires FirstRequest(s).Some?
    ensures var (r, rest) := FirstRequest(s).value;
            && Requests(s) == [r] + Requests(rest)
            && (HeadersFit(s) <==> FirstHeaderFits(s) && HeadersFit(rest))
  {
    var k, n := RequestParts(s);
    hide FirstRequest, FirstHeaderFits;
  }

  lemma ReadAllStep(c: Conn)
    requires ReadOne(c).Some?
    ensures ReadAll(c) == [ReadOne(c).value.0] + ReadAll(ReadOne(c).value.1)
  {
    hide ReadOne;
  }

  lemma StuckReadsNothing(c: Conn)
    requires AwaitHeaders(c).None?
    ensures ReadAll(c) == []
  {}

  /**
    Main result on the limit: every way of cutting the stream into pieces yields its requests if
    and only if the header section of every request has at most 61441 bytes, or at most 65536
    bytes are left of the stream when it begins.
   */
  lemma ChunksNeverMatter(s: string)
    ensures (forall chunks :: Delivered(chunks) && Flatten(chunks) == s ==> ReadAll(Conn("", chunks)) == Requests(s))
       <==> HeadersFit(s)
  {
    hide ReadAll, Requests, HeadersFit, Delivered;
    if HeadersFit(s) {
      forall chunks | Delivered(chunks) && Flatten(chunks) == s
        ensures ReadAll(Conn("", chunks)) == Requests(s)
      {
        assert Stream(Conn("", chunks)) == s;
        RequestsIgnoreChunks(Conn("", chunks));
      }
    } else {
      var chunks := SomeCutLoses(s);
    }
  }

  // ---------------------------------------------------------------------
  // The reader as it runs
  // ---------------------------------------------------------------------

  class Socket {
    var chunks: seq<string>

    constructor (chunks: seq<string>)
      ensures this.chunks == chunks
    {
      this.chunks := chunks;
    }

    /** The next piece, or nothing at the end. */
    method Recv() returns (piece: string)
      modifies this
      ensures old(chunks) == [] ==> piece == "" && chunks == []
      ensures old(chunks) != [] ==> piece == old(chunks)[0] && chunks == old(chunks)[1..]
    {
      if chunks == [] {
        return "";
      }
      piece := chunks[0];
      chunks := chunks[1..];
    }
  }

  class RequestReader {
    var buffer: string

    constructor ()
      ensures buffer == ""
    {
      buffer := "";
    }

    function Now(fd: Socket): Conn
      reads this, fd
    {
      Conn(buffer, fd.chunks)
    }

    method Fill(fd: Socket, need: nat) returns (ok: bool)
      requires Delivered(fd.chunks)
      modifies this, fd
      ensures ok <==> AwaitBytes(old(Now(fd)), need).Some?
      ensures ok ==> Now(fd) == AwaitBytes(old(Now(fd)), need).value && |buffer| >= need
    {
      while |buffer| < need
        invariant Delivered(fd.chunks)
        invariant AwaitBytes(Now(fd), need) == AwaitBytes(old(Now(fd)), need)
        decreases |fd.chunks|
      {
        var piece := fd.Recv();
        if piece == "" {
          return false;
        }
        buffer := buffer + piece;
      }
      return true;
    }

    method ReadHeaders(fd: Socket) returns (head: Option<Request>, bodyOffset: nat)
      requires Delivered(fd.chunks)
      modifies this, fd
      ensures AwaitHeaders(old(Now(fd))).None? ==> head.None?
      ensures AwaitHeaders(old(Now(fd))).Some? ==>
                && Now(fd) == AwaitHeaders(old(Now(fd))).value && Delivered(fd.chunks)
                && Find(buffer, BLANK) == Some(bodyOffset - 4) && 4 <= bodyOffset <= |buffer|
                && head == Head(buffer[..bodyOffset])
    {
      hide Head;
      bodyOffset := 0;
      var pos := Find(buffer, BLANK);
      while pos.None?
        invariant pos == Find(buffer, BLANK)
        invariant Delivered(fd.chunks)
        invariant AwaitHeaders(Now(fd)) == AwaitHeaders(old(Now(fd)))
        decreases |fd.chunks|, pos.None?
      {
        var piece := fd.Recv();
        if piece == "" {
          return None, 0;
        }
        buffer := buffer + piece;
        if |buffer| > LIMIT {
          return None, 0;
        }
        pos := Find(buffer, BLANK);
      }
      bodyOffset := pos.value + 4;
      head := ParseHead(buffer[..bodyOffset]);
    }

    method Read(fd: Socket) returns (out: Option<Request>)
      requires Delivered(fd.chunks)
      modifies this, fd
      ensures out.Some? <==> ReadOne(old(Now(fd))).Some?
      ensures out.Some? ==> (out.value, Now(fd)) == ReadOne(old(Now(fd))).value
    {
      hide Head, ContentLength, Find;
      var head, bodyOffset := ReadHeaders(fd);
      if head.None? {
        return None;
      }
      var need := bodyOffset + ContentLength(head.value.headers);
      if |buffer| < need {
        var ok := Fill(fd, need);
        if !ok {
          return None;
        }
      }
      out := Some(head.value.(body := buffer[bodyOffset..need]));
      buffer := buffer[need..];
    }
  }

  /** The request line and the header loop. */
  method ParseHead(section: string) returns (r: Option<Request>)
    requires |section| >= 4
    ensures r == Head(section)
  {
    hide Word, PathOf, Find, Fields;
    var lineEnd := Find(section, CRLF);
    if lineEnd.None? {
      return None;
    }
    var e := lineEnd.value;
    var m := Word(section[..e]);
    if m.None? {
      return None;
    }
    var uri := Word(m.value.1);
    if uri.None? {
      return None;
    }
    var version := Word(uri.value.1);
    if version.None? {
      return None;
    }
    var headers := map[];
    if e + 2 <= |section| - 2 {
      headers := ParseFields(section[e + 2..|section| - 2]);
    }
    return Some(Request(m.value.0, PathOf(uri.value.0), version.value.0, headers, ""));
  }

  method ParseFields(s: string) returns (headers: map<string, string>)
    ensures headers == Fields(s, map[])
  {
    hide Find, WithField;
    headers := map[];
    var p := 0;
    assert s[0..] == s;
    while p < |s|
      invariant 0 <= p <= |s|
      invariant Fields(s[p..], headers) == Fields(s, map[])
      decreases |s| - p
    {
      var eol := Find(s[p..], CRLF);
      if eol.None? {
        return;
      }
      var h := s[p..p + eol.value];
      assert s[p..][..eol.value] == h && s[p..][eol.value + 2..] == s[p + eol.value + 2..];
      if h == "" {
        return;
      }
      headers := WithField(headers, h);
      p := p + eol.value + 2;
    }
    assert s[p..] == "";
    NoFields(headers);
  }

  lemma NoFields(headers: map<string, string>)
    ensures Fields("", headers) == headers
  {}
}
