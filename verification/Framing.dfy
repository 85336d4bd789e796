/**
 * The line framing of the Stratum listener (stratum_listener.rs) for ASCII input, where one byte is one
 * character and the lossy UTF-8 conversion changes nothing.
 */
module Framing {
  const MAX_LINE_BYTES: nat := 16384

  /** The size of the read buffer. */
  const READ_BYTES: nat := 1024

  predicate IsSpace(c: char) {
    9 <= c as int <= 13 || c == ' '
  }

  function TrimStart(s: string): string {
    if s != "" && IsSpace(s[0]) then TrimStart(s[1..]) else s
  }

  function TrimEnd(s: string): string {
    if s != "" && IsSpace(s[|s| - 1]) then TrimEnd(s[..|s| - 1]) else s
  }

  function Trim(s: string): string {
    TrimEnd(TrimStart(s))
  }

  function StripNul(s: string): string {
    if s == "" then "" else Kept(s[0]) + StripNul(s[1..])
  }

  function Kept(c: char): string {
    if c == '\0' then "" else [c]
  }

  /** Position of the first newline, or the length. */
  function NewlineAt(s: string): (n: nat)
    ensures n <= |s|
    ensures n < |s| ==> s[n] == '\n'
    ensures forall i :: 0 <= i < n ==> s[i] != '\n'
  {
    if s == "" || s[0] == '\n' then 0 else 1 + NewlineAt(s[1..])
  }

  lemma NewlineIs(s: string, n: nat)
    requires n <= |s| && (n < |s| ==> s[n] == '\n')
    requires forall i :: 0 <= i < n ==> s[i] != '\n'
    ensures NewlineAt(s) == n
  {
    hide NewlineAt;
  }

  predicate HasLine(s: string) {
    NewlineAt(s) < |s|
  }

  /** Lines that give the peer away as an HTTP client. */
  predicate HttpLike(line: string) {
    || "PRI * HTTP/2" <= line
    || line == "SM"
    || "GET " <= line
    || "POST " <= line
    || "PUT " <= line
    || "DELETE " <= line
    || "HEAD " <= line
    || "OPTIONS " <= line
  }

  // ---- The reference: split at newlines, trim, drop blanks ----

  function Messages(s: string): seq<string>
    decreases |s|
  {
    var n := NewlineAt(s);
    if n == |s| then [] else Line(s[..n]) + Messages(s[n + 1..])
  }

  function Line(raw: string): seq<string> {
    if Trim(raw) == "" then [] else [Trim(raw)]
  }

  /** The piece after the last newline. */
  function Rest(s: string): (r: string)
    ensures !HasLine(r) && |r| <= |s|
    decreases |s|
  {
    var n := NewlineAt(s);
    if n == |s| then s else Rest(s[n + 1..])
  }

  // ---- The listener ----

  datatype Conn = Conn(buffer: string, first: bool, live: bool, out: seq<string>)

  const FRESH: Conn := Conn("", true, true, [])

  datatype Drained = Drained(out: seq<string>, rest: string, ok: bool) {
    ghost function After(sent: seq<string>): Drained {
      this.(out := sent + out)
    }
  }

  /** What the inner loop does to a buffer: dispatch its lines until it meets an HTTP one. */
  function Drain(buffer: string): Drained
    decreases |buffer|
  {
    var n := NewlineAt(buffer);
    if n == |buffer| then Drained([], buffer, true)
    else
      var line, rest := Trim(buffer[..n]), buffer[n + 1..];
      if line == "" then Drain(rest)
      else if HttpLike(line) then Drained([], rest, false)
      else var d := Drain(rest); Drained([line] + d.out, d.rest, d.ok)
  }

  lemma DrainStep(b: string, sent: seq<string>)
    ensures HasLine(b) <==> NewlineAt(b) < |b|
    ensures !HasLine(b) ==> Drain(b).After(sent) == Drained(sent, b, true)
    ensures HasLine(b) ==>
              var line, rest := Trim(b[..NewlineAt(b)]), b[NewlineAt(b) + 1..];
              Drain(b).After(sent) ==
              if line == "" then Drain(rest).After(sent)
              else if HttpLike(line) then Drained(sent, rest, false)
              else Drain(rest).After(sent + [line])
  {
    hide Trim, HttpLike;
    if HasLine(b) {
      var line, rest := Trim(b[..NewlineAt(b)]), b[NewlineAt(b) + 1..];
      if line != "" && !HttpLike(line) {
        assert sent + ([line] + Drain(rest).out) == sent + [line] + Drain(rest).out;
      }
    }
  }

  /** The handling of one read. */
  function Feed(c: Conn, chunk: string): Conn {
    var data := StripNul(chunk);
    if !c.live then c
    else if c.first && HttpLike(Trim(data[..NewlineAt(data)])) then c.(live := false)
    else
      var buffer := c.buffer + data;
      if |buffer| > MAX_LINE_BYTES && !HasLine(buffer) then Conn(buffer, false, false, c.out)
      else var d := Drain(buffer); Conn(d.rest, false, d.ok, c.out + d.out)
  }

  class ClientListener {
    var lineBuffer: string
    var firstMessage: bool
    var connected: bool
    /** The lines handed to the message handlers, oldest first. */
    var dispatched: seq<string>

    ghost function View(): Conn
      reads this
    {
      Conn(lineBuffer, firstMessage, connected, dispatched)
    }

    constructor ()
      ensures View() == FRESH
    {
      lineBuffer, firstMessage, connected, dispatched := "", true, true, [];
    }

    method OnRead(chunk: string)
      modifies this
      ensures View() == Feed(old(View()), chunk)
    {
      if !connected {
        return;
      }
      var data := StripNul(chunk);
      if firstMessage {
        var firstLine := Trim(data[..NewlineAt(data)]);
        if HttpLike(firstLine) {
          connected := false;
          return;
        }
        firstMessage := false;
      }
      lineBuffer := lineBuffer + data;
      if |lineBuffer| > MAX_LINE_BYTES && !HasLine(lineBuffer) {
        connected := false;
        return;
      }
      DispatchLines();
    }

    method DispatchLines()
      requires connected
      modifies this
      ensures firstMessage == old(firstMessage)
      ensures var d := Drain(old(lineBuffer));
              lineBuffer == d.rest && connected == d.ok && dispatched == old(dispatched) + d.out
    {
      hide Trim, HttpLike, Drain, HasLine, NewlineAt;
      ghost var all, sent := Drain(lineBuffer), [];
      while HasLine(lineBuffer)
        invariant connected && firstMessage == old(firstMessage)
        invariant dispatched == old(dispatched) + sent
        invariant all == Drain(lineBuffer).After(sent)
        decreases |lineBuffer|
      {
        DrainStep(lineBuffer, sent);
        var pos := NewlineAt(lineBuffer);
        var line := Trim(lineBuffer[..pos]);
        lineBuffer := lineBuffer[pos + 1..];
        if line != "" {
          if HttpLike(line) {
            connected := false;
            break;
          }
          dispatched := dispatched + [line];
          sent := sent + [line];
        }
      }
      if connected {
        DrainStep(lineBuffer, sent);
      }
    }
  }

  // ---- Whole connections ----

  function Concat(chunks: seq<string>): string {
    if chunks == [] then "" else Concat(chunks[..|chunks| - 1]) + chunks[|chunks| - 1]
  }

  /** A fresh connection after a sequence of reads. */
  function Heard(chunks: seq<string>): Conn {
    if chunks == [] then FRESH else Feed(Heard(chunks[..|chunks| - 1]), chunks[|chunks| - 1])
  }

  /** The ways a byte stream can arrive. */
  ghost predicate IsSplit(chunks: seq<string>, stream: string) {
    Concat(chunks) == stream && forall c :: c in chunks ==> 0 < |c| <= READ_BYTES
  }

  lemma {:induction false} StripNulConcat(a: string, b: string)
    ensures StripNul(a + b) == StripNul(a) + StripNul(b)
  {
    hide Kept;
    if a == "" {
      assert a + b == b;
    } else {
      StripNulConcat(a[1..], b);
      assert (a + b)[1..] == a[1..] + b;
      assert Kept(a[0]) + (StripNul(a[1..]) + StripNul(b)) == StripNul(a) + StripNul(b);
    }
  }

  lemma FramingAt(s: string, n: nat)
    requires n < |s| && s[n] == '\n' && forall i :: 0 <= i < n ==> s[i] != '\n'
    ensures Messages(s) == Line(s[..n]) + Messages(s[n + 1..])
    ensures Rest(s) == Rest(s[n + 1..])
  {
    hide Line, NewlineAt;
    NewlineIs(s, n);
  }

  lemma {:induction false} FramingMore(a: string, b: string)
    ensures Messages(a + b) == Messages(a) + Messages(Rest(a) + b)
    ensures Rest(a + b) == Rest(Rest(a) + b)
    decreases |a|
  {
    hide Line, NewlineAt, HasLine, Messages, Rest;
    var n := NewlineAt(a);
    if n == |a| {
      Unframed(a);
    } else {
      FramingMore(a[n + 1..], b);
      FramingJoin(a, b, n);
    }
  }

  lemma Unframed(s: string)
    requires NewlineAt(s) == |s|
    ensures Messages(s) == [] && Rest(s) == s
  {
  }

  lemma FramingJoin(a: string, b: string, n: nat)
    requires n < |a| && a[n] == '\n' && forall i :: 0 <= i < n ==> a[i] != '\n'
    ensures Messages(a) == Line(a[..n]) + Messages(a[n + 1..]) && Rest(a) == Rest(a[n + 1..])
    ensures Messages(a + b) == Line(a[..n]) + Messages(a[n + 1..] + b)
    ensures Rest(a + b) == Rest(a[n + 1..] + b)
  {
    hide Line, NewlineAt, HasLine, Messages, Rest;
    FramingAt(a, n);
    FramingAt(a + b, n);
    assert (a + b)[..n] == a[..n] && (a + b)[n + 1..] == a[n + 1..] + b;
  }

  lemma RestShort(a: string, b: string)
    requires !HasLine(a)
    ensures HasLine(a + b) ==> |Rest(a + b)| < |b|
    ensures !HasLine(a + b) ==> Rest(a + b) == a + b
  {
    assert NewlineAt(a + b) >= |a|;
  }

  lemma {:induction false} StripNulShorter(s: string)
    ensures |StripNul(s)| <= |s|
  {
    if s != "" {
      StripNulShorter(s[1..]);
    }
  }

  lemma {:induction false} DrainIs(b: string)
    ensures Drain(b).ok <==> forall m :: m in Messages(b) ==> !HttpLike(m)
    ensures Drain(b).ok ==> Drain(b).out == Messages(b) && Drain(b).rest == Rest(b)
    ensures Drain(b).out <= Messages(b)
    decreases |b|
  {
    hide Trim, HttpLike, NewlineAt;
    var n := NewlineAt(b);
    if n < |b| {
      var line, rest := Trim(b[..n]), b[n + 1..];
      DrainIs(rest);
      assert Messages(b) == (if line == "" then [] else [line]) + Messages(rest);
      if line != "" {
        assert line == Messages(b)[0];
        assert forall m :: m in Messages(b) <==> m == line || m in Messages(rest);
      }
    }
  }

  /**
   * However the bytes were cut into reads: a live connection has dispatched exactly the lines of the stream and
   * holds exactly its unfinished tail, within the bound; a dead one has dispatched the first few of those lines.
   */
  lemma {:induction false} Framed(chunks: seq<string>)
    requires forall c :: c in chunks ==> |c| <= READ_BYTES
    ensures var c, s := Heard(chunks), StripNul(Concat(chunks));
            && c.out <= Messages(s)
            && (c.live ==> c.out == Messages(s) && c.buffer == Rest(s) && |c.buffer| <= 16384)
            && (c.live ==> (c.first <==> chunks == []))
  {
    if chunks != [] {
      var init, last := chunks[..|chunks| - 1], chunks[|chunks| - 1];
      Framed(init);
      FeedFrames(Heard(init), StripNul(Concat(init)), last);
      StripNulConcat(Concat(init), last);
    }
  }

  lemma FeedFrames(c: Conn, s: string, chunk: string)
    requires |chunk| <= READ_BYTES
    requires c.out <= Messages(s)
    requires c.live ==> c.out == Messages(s) && c.buffer == Rest(s)
    ensures var d, t := Feed(c, chunk), s + StripNul(chunk);
            && d.out <= Messages(t)
            && (d.live ==> d.out == Messages(t) && d.buffer == Rest(t) && |d.buffer| <= MAX_LINE_BYTES && !d.first)
  {
    hide HttpLike, Trim, Messages, Drain, NewlineAt, StripNul, HasLine, Rest;
    var data := StripNul(chunk);
    StripNulShorter(chunk);
    FramingMore(s, data);
    var d := Feed(c, chunk);
    if d.live {
      DrainIs(c.buffer + data);
      RestShort(c.buffer, data);
    } else if c.live {
      DrainIs(c.buffer + data);
    }
  }

  // ---- When the way the stream is cut into reads does not matter ----

  /** Every line, and the unfinished tail, is within the limit. */
  predicate LinesFit(s: string)
    decreases |s|
  {
    var n := NewlineAt(s);
    n <= MAX_LINE_BYTES && (n == |s| || LinesFit(s[n + 1..]))
  }

  /** A stream that gives no reason to disconnect. */
  ghost predicate Tame(s: string) {
    LinesFit(s) && !HttpLike(Trim(Rest(s))) && forall m :: m in Messages(s) ==> !HttpLike(m)
  }

  /** What the first-read test looks at. */
  function Glimpse(read: string): string {
    var data := StripNul(read);
    Trim(data[..NewlineAt(data)])
  }

  /** Some possible first read looks like the HTTP/2 preface's "SM". */
  ghost predicate Misleading(stream: string) {
    exists k :: 0 < k <= READ_BYTES && k <= |stream| && Glimpse(stream[..k]) == "SM"
  }

  lemma {:induction false} TrimStartPrefix(p: string, s: string)
    requires p <= s && TrimStart(p) != ""
    ensures TrimStart(p) <= TrimStart(s)
  {
    if IsSpace(p[0]) {
      TrimStartPrefix(p[1..], s[1..]);
    }
  }

  lemma {:induction false} TrimEndStops(s: string)
    ensures TrimEnd(s) <= s
    ensures TrimEnd(s) != "" ==> !IsSpace(TrimEnd(s)[|TrimEnd(s)| - 1])
  {
    if s != "" {
      TrimEndStops(s[..|s| - 1]);
    }
  }

  lemma {:induction false} TrimEndKeeps(q: string, s: string)
    requires q != "" && q <= s && !IsSpace(q[|q| - 1])
    ensures q <= TrimEnd(s)
    decreases |s|
  {
    if IsSpace(s[|s| - 1]) {
      TrimEndKeeps(q, s[..|s| - 1]);
    }
  }

  lemma TrimPrefix(p: string, s: string)
    requires p <= s && Trim(p) != ""
    ensures Trim(p) <= Trim(s)
  {
    TrimEndStops(TrimStart(p));
    TrimStartPrefix(p, s);
    TrimEndKeeps(Trim(p), TrimStart(s));
  }

  lemma HttpGrows(t: string, u: string)
    requires t <= u && HttpLike(t) && t != "SM"
    ensures HttpLike(u)
  {
  }

  /** The line, or unfinished tail, that a stream starts with. */
  lemma FirstSegment(s: string)
    requires Tame(s)
    ensures !HttpLike(Trim(s[..NewlineAt(s)]))
    ensures HasLine(s) && Trim(s[..NewlineAt(s)]) != "" ==> Messages(s) != []
  {
    hide Trim, HttpLike, LinesFit;
    var n := NewlineAt(s);
    if n == |s| {
      Unframed(s);
      assert s[..n] == s;
    } else if Trim(s[..n]) == "" {
      assert !HttpLike("") by { NotHttp(); }
    } else {
      assert Messages(s)[0] == Trim(s[..n]);
    }
  }

  lemma NotHttp()
    ensures !HttpLike("")
  {
  }

  /** Cutting a stream early leaves its first segment, or a prefix of it. */
  lemma GlimpseIsPrefix(data: string, tail: string)
    ensures data[..NewlineAt(data)] <= (data + tail)[..NewlineAt(data + tail)]
    ensures HasLine(data) ==> data[..NewlineAt(data)] == (data + tail)[..NewlineAt(data + tail)]
  {
    hide NewlineAt;
    var n, m := NewlineAt(data), NewlineAt(data + tail);
    if n < |data| {
      NewlineIs(data + tail, n);
    } else {
      assert n <= m;
    }
  }

  lemma FirstReadPasses(data: string, tail: string)
    requires Tame(data + tail)
    ensures var t := Trim(data[..NewlineAt(data)]); HttpLike(t) ==> t == "SM"
  {
    hide Trim, HttpLike, Tame, NewlineAt, HasLine;
    var p, s := data[..NewlineAt(data)], data + tail;
    GlimpseIsPrefix(data, tail);
    FirstSegment(s);
    NotHttp();
    if Trim(p) != "" && Trim(p) != "SM" && HttpLike(Trim(p)) {
      TrimPrefix(p, s[..NewlineAt(s)]);
      HttpGrows(Trim(p), Trim(s[..NewlineAt(s)]));
    }
  }

  lemma {:induction false} TailFits(a: string, t: string)
    requires LinesFit(a + t)
    ensures |Rest(a)| <= MAX_LINE_BYTES
    decreases |a|
  {
    hide NewlineAt;
    var n := NewlineAt(a);
    if n < |a| {
      NewlineIs(a + t, n);
      assert (a + t)[n + 1..] == a[n + 1..] + t;
      TailFits(a[n + 1..], t);
    } else {
      assert NewlineAt(a + t) >= |a|;
    }
  }

  lemma FeedStaysLive(c: Conn, s: string, chunk: string, tail: string)
    requires c.live && c.buffer == Rest(s) && (c.first ==> s == "")
    requires Tame(s + StripNul(chunk) + tail)
    requires c.first ==> Glimpse(chunk) != "SM"
    ensures Feed(c, chunk).live
  {
    hide HttpLike, Trim, Messages, Drain, NewlineAt, StripNul, Rest, LinesFit;
    var data := StripNul(chunk);
    if c.first {
      assert s + data + tail == data + tail;
      FirstReadPasses(data, tail);
    }
    TailFits(s + data, tail);
    FramingMore(s, data);
    FramingMore(s + data, tail);
    RestShort(c.buffer, data);
    DrainIs(c.buffer + data);
  }

  lemma {:induction false} StaysLive(chunks: seq<string>, tail: string)
    requires forall c :: c in chunks ==> 0 < |c| <= READ_BYTES
    requires Tame(StripNul(Concat(chunks) + tail)) && !Misleading(Concat(chunks) + tail)
    ensures Heard(chunks).live
  {
    hide Tame, StripNul, Feed, Glimpse;
    if chunks != [] {
      var init, last := chunks[..|chunks| - 1], chunks[|chunks| - 1];
      var s := Concat(init);
      assert Concat(chunks) + tail == s + (last + tail);
      StaysLive(init, last + tail);
      Framed(init);
      StripNulConcat(s + last, tail);
      StripNulConcat(s, last);
      if init == [] {
        assert (Concat(chunks) + tail)[..|last|] == last;
        StripNulNothing();
      }
      FeedStaysLive(Heard(init), StripNul(s), last, StripNul(tail));
    }
  }

  lemma StripNulNothing()
    ensures StripNul("") == ""
  {
  }

  lemma {:induction false} FirstReadKills(chunks: seq<string>)
    requires chunks != [] && HttpLike(Glimpse(chunks[0]))
    ensures !Heard(chunks).live && Heard(chunks).out == []
  {
    hide HttpLike, Drain;
    var init := chunks[..|chunks| - 1];
    if init != [] {
      FirstReadKills(init);
    }
  }

  function Pieces(s: string): (chunks: seq<string>)
    ensures Concat(chunks) == s
    ensures forall c :: c in chunks ==> 0 < |c| <= READ_BYTES
  {
    if s == "" then [] else Pieces(s[..|s| - 1]) + [s[|s| - 1..]]
  }

  lemma {:induction false} ConcatMore(a: string, chunks: seq<string>)
    ensures Concat([a] + chunks) == a + Concat(chunks)
  {
    if chunks == [] {
      assert [a] + chunks == [a];
    } else {
      var init, last := chunks[..|chunks| - 1], chunks[|chunks| - 1];
      ConcatMore(a, init);
      assert ([a] + chunks)[..|chunks|] == [a] + init;
    }
  }

  /**
   * For a stream of lines that are within the limit and do not look like HTTP, the dispatched messages are the same
   * for every way of cutting it into reads if and only if no possible first read reads as "SM" (or there is no
   * complete line to dispatch at all).
   */
  lemma SplitsAgree(stream: string)
    ensures Tame(StripNul(stream)) ==>
              ((forall chunks :: IsSplit(chunks, stream) ==> Heard(chunks).out == Messages(StripNul(stream)))
               <==> (!HasLine(StripNul(stream)) || !Misleading(stream)))
  {
    hide Tame, Heard, Messages, StripNul, HasLine, Misleading, IsSplit;
    var s := StripNul(stream);
    if Tame(s) {
      if !HasLine(s) || !Misleading(stream) {
        forall chunks | IsSplit(chunks, stream)
          ensures Heard(chunks).out == Messages(s)
        {
          AnySplit(chunks, stream);
        }
      } else {
        var chunks := BadSplit(stream);
      }
    }
  }

  lemma AnySplit(chunks: seq<string>, stream: string)
    requires IsSplit(chunks, stream) && Tame(StripNul(stream))
    requires !HasLine(StripNul(stream)) || !Misleading(stream)
    ensures Heard(chunks).out == Messages(StripNul(stream))
  {
    hide Tame, Heard, Messages, StripNul, Misleading;
    Framed(chunks);
    if HasLine(StripNul(stream)) {
      assert Concat(chunks) + "" == stream;
      StaysLive(chunks, "");
    } else {
      Unframed(StripNul(stream));
    }
  }

  lemma BadSplit(stream: string) returns (chunks: seq<string>)
    requires Tame(StripNul(stream)) && HasLine(StripNul(stream)) && Misleading(stream)
    ensures IsSplit(chunks, stream) && Heard(chunks).out != Messages(StripNul(stream))
  {
    hide Tame, Heard, Messages, StripNul, NewlineAt, Trim, HttpLike;
    var k :| 0 < k <= READ_BYTES && k <= |stream| && Glimpse(stream[..k]) == "SM";
    chunks := [stream[..k]] + Pieces(stream[k..]);
    ConcatMore(stream[..k], Pieces(stream[k..]));
    assert stream == stream[..k] + stream[k..];
    SmIsHttp();
    FirstReadKills(chunks);
    var data, s := StripNul(stream[..k]), StripNul(stream);
    StripNulConcat(stream[..k], stream[k..]);
    GlimpseIsPrefix(data, StripNul(stream[k..]));
    TrimPrefix(data[..NewlineAt(data)], s[..NewlineAt(s)]);
    FirstSegment(s);
  }

  lemma SmIsHttp()
    ensures HttpLike("SM")
  {
  }

  lemma {:induction false} NoNul(s: string)
    requires '\0' !in s
    ensures StripNul(s) == s
  {
    if s != "" {
      NoNul(s[1..]);
      assert [s[0]] + s[1..] == s;
    }
  }

  /** The line SMA is dispatched when it arrives whole and costs the connection when its first two bytes come alone. */
  lemma SplitMatters()
    ensures Heard(["SMA\n"]).out == ["SMA"]
    ensures IsSplit(["SM", "A\n"], "SMA\n") && Heard(["SM", "A\n"]).out == []
  {
    hide StripNul, Drain, Trim, Feed, NewlineAt, HttpLike;
    WholeLine();
    assert ["SMA\n"][..0] == [];
    FirstBytesAlone();
    SmIsHttp();
    FirstReadKills(["SM", "A\n"]);
    ConcatMore("SM", ["A\n"]);
  }

  lemma FirstBytesAlone()
    ensures Glimpse("SM") == "SM"
  {
    hide StripNul, NewlineAt;
    NoNul("SM");
    NewlineIs("SM", 2);
    assert "SM"[..2] == "SM";
  }

  lemma WholeLine()
    ensures Feed(FRESH, "SMA\n").out == ["SMA"]
  {
    hide StripNul, NewlineAt, Drain, Trim;
    var whole := "SMA\n";
    NoNul(whole);
    NewlineIs(whole, 3);
    assert whole[..3] == "SMA";
    assert Trim("SMA") == "SMA" by { TrimmedAlready("SMA"); }
    DrainStep(whole, []);
    assert [] + ["SMA"] == ["SMA"] && "" + whole == whole;
    NewlineIs(whole[4..], 0);
    DrainStep(whole[4..], ["SMA"]);
    assert Drain(whole).After([]).out == Drain(whole).out;
    assert !HttpLike("SMA");
    assert Drain(whole).out == ["SMA"];
  }

  lemma TrimmedAlready(s: string)
    requires s != "" && !IsSpace(s[0]) && !IsSpace(s[|s| - 1])
    ensures Trim(s) == s
  {
  }

  // ---- What the pieces mean ----

  /** Tab, line feed, vertical tab, form feed, carriage return and space. */
  ghost predicate Blank(s: string) {
    forall i :: 0 <= i < |s| ==> s[i] as int in {9, 10, 11, 12, 13, 32}
  }

  lemma {:induction false} TrimStartCuts(s: string) returns (a: string)
    ensures s == a + TrimStart(s) && Blank(a)
    ensures TrimStart(s) != "" ==> TrimStart(s)[0] as int !in {9, 10, 11, 12, 13, 32}
  {
    if s != "" && IsSpace(s[0]) {
      var rest := TrimStartCuts(s[1..]);
      a := [s[0]] + rest;
      assert a + TrimStart(s) == [s[0]] + (rest + TrimStart(s[1..])) == s;
    } else {
      a := "";
    }
  }

  lemma {:induction false} TrimEndCuts(s: string) returns (b: string)
    ensures s == TrimEnd(s) + b && Blank(b)
    ensures TrimEnd(s) != "" ==> TrimEnd(s)[|TrimEnd(s)| - 1] as int !in {9, 10, 11, 12, 13, 32}
  {
    if s != "" && IsSpace(s[|s| - 1]) {
      var n := |s| - 1;
      var rest := TrimEndCuts(s[..n]);
      b := rest + [s[n]];
      assert TrimEnd(s) + b == TrimEnd(s[..n]) + rest + [s[n]] == s;
    } else {
      b := "";
    }
  }

  /** Trimming takes the white space off both ends and nothing else. */
  lemma TrimIs(s: string) returns (a: string, b: string)
    ensures s == a + Trim(s) + b && Blank(a) && Blank(b)
    ensures Trim(s) != "" ==>
              && Trim(s)[0] as int !in {9, 10, 11, 12, 13, 32}
              && Trim(s)[|Trim(s)| - 1] as int !in {9, 10, 11, 12, 13, 32}
  {
    hide Blank;
    a := TrimStartCuts(s);
    b := TrimEndCuts(TrimStart(s));
    assert a + (Trim(s) + b) == a + Trim(s) + b;
    assert Trim(s) != "" ==> Trim(s)[0] == TrimStart(s)[0];
  }

  /** A line trims to nothing exactly when it is white space. */
  lemma BlankLine(s: string)
    ensures Trim(s) == "" <==> Blank(s)
  {
    hide Trim;
    var a, b := TrimIs(s);
    if Trim(s) != "" {
      assert s[|a|] == Trim(s)[0];
    } else {
      assert s == a + b;
    }
  }

  /** The characters other than NUL. */
  ghost function Ink(s: string): nat {
    if s == "" then 0 else Ink(s[..|s| - 1]) + if s[|s| - 1] as int == 0 then 0 else 1
  }

  /** Stripping keeps the characters other than NUL, each in its place among them. */
  lemma {:induction false} StripNulIs(s: string)
    ensures |StripNul(s)| == Ink(s)
    ensures forall i :: 0 <= i < |s| && s[i] as int != 0 ==> Ink(s[..i]) < |StripNul(s)| && StripNul(s)[Ink(s[..i])] == s[i]
    ensures forall j :: 0 <= j < |StripNul(s)| ==> StripNul(s)[j] as int != 0
  {
    hide StripNul;
    if s == "" {
      StripNulNothing();
    } else {
      var n := |s| - 1;
      var init := s[..n];
      StripNulIs(init);
      StripNulLast(init, s[n]);
      assert s == init + [s[n]];
      forall i | 0 <= i < |s| && s[i] as int != 0
        ensures Ink(s[..i]) < |StripNul(s)| && StripNul(s)[Ink(s[..i])] == s[i]
      {
        if i < n {
          assert s[..i] == init[..i] && s[i] == init[i];
        }
      }
    }
  }

  lemma StripNulLast(s: string, c: char)
    ensures StripNul(s + [c]) == StripNul(s) + (if c as int == 0 then "" else [c])
  {
    StripNulConcat(s, [c]);
    assert [c][1..] == "";
    assert StripNul([c]) == Kept(c) + StripNul("");
  }

  const HTTP_STARTS: seq<string> := ["PRI * HTTP/2", "GET ", "POST ", "PUT ", "DELETE ", "HEAD ", "OPTIONS "]

  /** The lines taken for HTTP: SM, and those that start like an HTTP/2 preface or a request. Never a JSON object. */
  lemma HttpLikeIs(line: string)
    ensures HttpLike(line) <==> line == "SM" || exists i :: 0 <= i < |HTTP_STARTS| && HTTP_STARTS[i] <= line
    ensures line != "" && line[0] == '{' ==> !HttpLike(line)
  {
    var p := HTTP_STARTS;
    assert p[0] == "PRI * HTTP/2" && p[1] == "GET " && p[2] == "POST " && p[3] == "PUT ";
    assert p[4] == "DELETE " && p[5] == "HEAD " && p[6] == "OPTIONS ";
  }

  /** Line by line, what the listener makes of a stream: a blank line gives nothing, any other its trimmed text, and a
      stream without a newline is still unfinished. */
  lemma MessagesAre(raw: string, more: string)
    requires '\n' !in raw
    ensures Messages(raw) == [] && Rest(raw) == raw
    ensures Messages(raw + "\n" + more) == (if Blank(raw) then [] else [Trim(raw)]) + Messages(more)
    ensures Rest(raw + "\n" + more) == Rest(more)
  {
    hide Messages, Rest, Trim, NewlineAt, Blank;
    var s := raw + "\n" + more;
    NewlineIs(raw, |raw|);
    Unframed(raw);
    FramingAt(s, |raw|);
    assert s[..|raw|] == raw && s[|raw| + 1..] == more;
    BlankLine(raw);
  }
}
