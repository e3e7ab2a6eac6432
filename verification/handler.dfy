/**
 `ISpindelTCPHandler.handle`: one connection, one line, one reply byte.
 The socket is replaced by the bytes the peer sends; the clock, UTF-8
 decoding and `json.loads` are parameters.
 */
module Handler {
  import opened Wrappers
  import opened JsonValues
  import opened ReportQueue

  newtype byte = b: int | 0 <= b < 256

  /** The acknowledgement written after a line that decodes as JSON. */
  const ACK: byte := 0x06
  /** The negative acknowledgement written after a line that does not. */
  const NAK: byte := 0x15
  const NEWLINE: byte := 0x0A

  /** The whitespace `bytes.strip()` removes: space, tab, line feed, vertical tab, form feed, carriage return. */
  predicate IsSpace(b: byte) {
    b == 0x20 || 0x09 <= b <= 0x0D
  }

  /**
   `rfile.readline()`: the bytes up to and including the first line feed, or
   everything the peer sent if it sent none.
   */
  function ReadLine(stream: seq<byte>): (line: seq<byte>)
    ensures line <= stream
    ensures NEWLINE in stream <==> 0 < |line| && line[|line| - 1] == NEWLINE
    ensures NEWLINE !in stream ==> line == stream
    ensures forall i :: 0 <= i < |line| - 1 ==> line[i] != NEWLINE
  {
    if |stream| == 0 then []
    else if stream[0] == NEWLINE then [NEWLINE]
    else [stream[0]] + ReadLine(stream[1..])
  }

  /** Drops leading whitespace: what is dropped is whitespace, what is kept does not start with any. */
  function TrimStart(s: seq<byte>): (r: seq<byte>)
    ensures |r| <= |s| && r == s[|s| - |r|..]
    ensures forall i :: 0 <= i < |s| - |r| ==> IsSpace(s[i])
    ensures |r| > 0 ==> !IsSpace(r[0])
  {
    if |s| > 0 && IsSpace(s[0]) then TrimStart(s[1..]) else s
  }

  /** Drops trailing whitespace: what is dropped is whitespace, what is kept does not end with any. */
  function TrimEnd(s: seq<byte>): (r: seq<byte>)
    ensures |r| <= |s| && r == s[..|r|]
    ensures forall i :: |r| <= i < |s| ==> IsSpace(s[i])
    ensures |r| > 0 ==> !IsSpace(r[|r| - 1])
  {
    if |s| > 0 && IsSpace(s[|s| - 1]) then TrimEnd(s[..|s| - 1]) else s
  }

  /** `bytes.strip()`: the line without its surrounding whitespace. */
  function Strip(s: seq<byte>): (r: seq<byte>)
    ensures |r| <= |s|
    ensures |r| > 0 ==> !IsSpace(r[0]) && !IsSpace(r[|r| - 1])
    ensures |r| == 0 <==> forall i :: 0 <= i < |s| ==> IsSpace(s[i])
  {
    TrimEnd(TrimStart(s))
  }

  /** `Strip` removes exactly the whitespace padding around the content, whatever that padding is. */
  lemma StripPadding(pre: seq<byte>, core: seq<byte>, post: seq<byte>)
    requires forall i :: 0 <= i < |pre| ==> IsSpace(pre[i])
    requires forall i :: 0 <= i < |post| ==> IsSpace(post[i])
    requires |core| > 0 ==> !IsSpace(core[0]) && !IsSpace(core[|core| - 1])
    ensures Strip(pre + core + post) == core
  {
    var s := pre + core + post;
    if |core| == 0 {
      assert forall i :: 0 <= i < |s| ==> IsSpace(s[i]) by {
        forall i | 0 <= i < |s| ensures IsSpace(s[i]) {
          if i < |pre| { assert s[i] == pre[i]; } else { assert s[i] == post[i - |pre|]; }
        }
      }
    } else {
      assert s == pre + (core + post);
      TrimStartPadding(pre, core + post);
      TrimEndPadding(core, post);
    }
  }

  /** Leading whitespace in front of content that does not start with any is exactly what `TrimStart` drops. */
  lemma TrimStartPadding(pre: seq<byte>, rest: seq<byte>)
    requires forall i :: 0 <= i < |pre| ==> IsSpace(pre[i])
    requires |rest| > 0 && !IsSpace(rest[0])
    ensures TrimStart(pre + rest) == rest
  {
    var s := pre + rest;
    var t := TrimStart(s);
    assert s[|pre|] == rest[0];
    assert |t| == |rest|;
    assert s[|pre|..] == rest;
  }

  /** Trailing whitespace after content that does not end with any is exactly what `TrimEnd` drops. */
  lemma TrimEndPadding(core: seq<byte>, post: seq<byte>)
    requires forall i :: 0 <= i < |post| ==> IsSpace(post[i])
    requires |core| > 0 && !IsSpace(core[|core| - 1])
    ensures TrimEnd(core + post) == core
  {
    var s := core + post;
    var t := TrimEnd(s);
    assert s[|core| - 1] == core[|core| - 1];
    assert |t| == |core|;
    assert s[..|core|] == core;
  }

  /** What one handler invocation does, in program order. */
  datatype Effect = Enqueue(item: Item) | Reply(b: byte)

  /** The bytes written to the peer, in order. */
  function Replies(es: seq<Effect>): seq<byte>
  {
    if |es| == 0 then [] else (if es[0].Reply? then [es[0].b] else []) + Replies(es[1..])
  }

  /** The items put on the queue, in order. */
  function Enqueued(es: seq<Effect>): seq<Item>
  {
    if |es| == 0 then [] else (if es[0].Enqueue? then [es[0].item] else []) + Enqueued(es[1..])
  }

  /** The request text: the first line, stripped, then decoded from UTF-8. */
  function RequestText(stream: seq<byte>, utf8: seq<byte> -> Option<string>): Option<string>
  {
    utf8(Strip(ReadLine(stream)))
  }

  /**
   The body of `handle()` once the line is read: text that is not UTF-8
   (`None`) raises before any reply; text `json.loads` accepts (any JSON
   value, not only an object) is queued with the arrival time `now` and then
   acknowledged; any other text gets a NAK and nothing is queued.
   */
  function Respond(text: Option<string>, now: string, decode: string -> Option<Json>): (es: seq<Effect>)
    ensures Replies(es) == [] <==> text.None?
    ensures Replies(es) == [ACK] <==> text.Some? && decode(text.value).Some?
    ensures Replies(es) == [NAK] <==> text.Some? && decode(text.value).None?
    ensures Replies(es) == [ACK] ==> text.Some? && decode(text.value).Some? && Enqueued(es) == [Item(now, decode(text.value).value)]
    ensures Replies(es) != [ACK] ==> Enqueued(es) == []
    ensures forall i, j :: 0 <= i < |es| && 0 <= j < |es| && es[i].Enqueue? && es[j].Reply? ==> i < j
  {
    match text
    case None => []
    case Some(t) =>
      match decode(t)
      case Some(report) =>
        var es := [Enqueue(Item(now, report)), Reply(ACK)];
        assert Replies(es) == [ACK] && Enqueued(es) == [Item(now, report)] by {
          assert es[1..] == [Reply(ACK)];
          assert Replies([Reply(ACK)]) == [ACK];
          assert Enqueued([Reply(ACK)]) == [];
        }
        es
      case None =>
        assert Replies([Reply(NAK)]) == [NAK];
        [Reply(NAK)]
  }

  /**
   `handle()`: read one line, strip it, decode it and respond. `Serve` states
   what this does to the queue and to the peer.
   */
  function Handle(stream: seq<byte>, now: string, utf8: seq<byte> -> Option<string>,
                  decode: string -> Option<Json>): seq<Effect>
  {
    Respond(RequestText(stream, utf8), now, decode)
  }

  /** The outcome of one connection: the queue afterwards and the bytes the peer received. */
  datatype Exchange = Exchange(queue: seq<Item>, written: seq<byte>)

  /** One connection served against the shared queue `q`. */
  function Serve(q: seq<Item>, stream: seq<byte>, now: string, utf8: seq<byte> -> Option<string>,
                 decode: string -> Option<Json>): (x: Exchange)
    ensures |x.written| <= 1
    ensures x.written == [ACK] <==> |x.queue| == |q| + 1
    ensures x.written != [ACK] ==> x.queue == q
    ensures var text := RequestText(stream, utf8);
      x.written == [ACK] ==>
        && text.Some? && decode(text.value).Some?
        && x.queue == Push(q, Item(now, decode(text.value).value))
    ensures var text := RequestText(stream, utf8);
      text.Some? && decode(text.value).Some? ==> x.written == [ACK]
    ensures var text := RequestText(stream, utf8);
      text.Some? && decode(text.value).None? ==> x == Exchange(q, [NAK])
    ensures RequestText(stream, utf8).None? ==> x == Exchange(q, [])
  {
    var es := Handle(stream, now, utf8, decode);
    Exchange(q + Enqueued(es), Replies(es))
  }

  /** `readline` stops at the first line feed: whatever follows it is never read. */
  lemma {:induction false} ReadLineFirstLine(line: seq<byte>, rest: seq<byte>)
    requires 0 < |line| && line[|line| - 1] == NEWLINE
    requires forall i :: 0 <= i < |line| - 1 ==> line[i] != NEWLINE
    ensures ReadLine(line + rest) == line
    decreases |line|
  {
    if |line| > 1 {
      ReadLineFirstLine(line[1..], rest);
      assert (line + rest)[1..] == line[1..] + rest;
    }
  }

  /**
   One request per connection: once the first line is complete, what the
   peer sends after it changes neither the reply nor the queue.
   */
  lemma ServeReadsOneLine(q: seq<Item>, line: seq<byte>, rest1: seq<byte>, rest2: seq<byte>, now: string,
                          utf8: seq<byte> -> Option<string>, decode: string -> Option<Json>)
    requires 0 < |line| && line[|line| - 1] == NEWLINE
    requires forall i :: 0 <= i < |line| - 1 ==> line[i] != NEWLINE
    ensures Serve(q, line + rest1, now, utf8, decode) == Serve(q, line + rest2, now, utf8, decode)
  {
    ReadLineFirstLine(line, rest1);
    ReadLineFirstLine(line, rest2);
  }
}
