/** Length-prefixed messages: what a sender puts on the stream, and what a receiver that gets the
    stream in arbitrary pieces makes of it. */
module Framing {
  import opened BufferPool

  const MESSAGE_HEAD_LEN := 8
  const MESSAGE_LENGTH_LIMIT := 65535 - MESSAGE_HEAD_LEN

  datatype Message = Message(id: int, body: seq<Byte>)

  predicate FitsInt32(x: int) {
    -0x8000_0000 <= x < 0x8000_0000
  }

  /** A 32-bit integer as it lies in memory, lowest byte first. */
  function Encode(x: int): (s: seq<Byte>)
    requires FitsInt32(x)
    ensures |s| == 4
  {
    var u := if x < 0 then x + 0x1_0000_0000 else x;
    [u % 256, u / 256 % 256, u / 65536 % 256, u / 16777216]
  }

  function Decode(s: seq<Byte>): (x: int)
    requires |s| == 4
    ensures FitsInt32(x)
  {
    var u := (s[0] as int) + 256 * (s[1] as int) + 65536 * (s[2] as int) + 16777216 * (s[3] as int);
    if u < 0x8000_0000 then u else u - 0x1_0000_0000
  }

  /** The lowest byte comes first, and a negative int is stored as its two's complement. */
  lemma LowestByteFirst(x: int)
    requires FitsInt32(x)
    ensures var s := Encode(x);
            (s[0] as int) + 0x100 * (s[1] as int) + 0x1_0000 * (s[2] as int) + 0x100_0000 * (s[3] as int)
            == if x < 0 then x + 0x1_0000_0000 else x
  {
    var u := if x < 0 then x + 0x1_0000_0000 else x;
    assert u == u % 256 + 256 * (u / 256);
    assert u / 256 == u / 256 % 256 + 256 * (u / 65536);
    assert u / 65536 == u / 65536 % 256 + 256 * (u / 16777216);
  }

  lemma DecodeEncode(x: int)
    requires FitsInt32(x)
    ensures |Encode(x)| == 4 && Decode(Encode(x)) == x
  {
    var u := if x < 0 then x + 0x1_0000_0000 else x;
    assert u == u % 256 + 256 * (u / 256);
    assert u / 256 == u / 256 % 256 + 256 * (u / 65536);
    assert u / 65536 == u / 65536 % 256 + 256 * (u / 16777216);
  }

  lemma Split(r: int, q: int)
    requires 0 <= r < 256
    ensures (r + 256 * q) % 256 == r && (r + 256 * q) / 256 == q
  {
  }

  lemma Digits(a: int, b: int, c: int, d: int)
    requires 0 <= a < 256 && 0 <= b < 256 && 0 <= c < 256
    ensures var u := a + 256 * b + 65536 * c + 16777216 * d;
            u % 256 == a && u / 256 % 256 == b && u / 65536 % 256 == c && u / 16777216 == d
  {
    var u2 := c + 256 * d;
    var u1 := b + 256 * u2;
    var u := a + 256 * u1;
    assert u == a + 256 * b + 65536 * c + 16777216 * d;
    Split(a, u1);
    Split(b, u2);
    Split(c, d);
    assert u / 65536 == u / 256 / 256 && u / 16777216 == u / 65536 / 256;
  }

  lemma EncodeDecode(s: seq<Byte>)
    requires |s| == 4
    ensures Encode(Decode(s)) == s
  {
    Digits(s[0], s[1], s[2], s[3]);
  }

  /** What can be put into a header at all, and what a receiver accepts. */
  predicate Sendable(m: Message) {
    FitsInt32(m.id) && FitsInt32(|m.body|)
  }

  predicate Acceptable(m: Message) {
    FitsInt32(m.id) && |m.body| <= MESSAGE_LENGTH_LIMIT
  }

  /** A sender refuses a message that does not fit into the largest block behind what is queued. */
  predicate Refused(queued: int, length: nat) {
    M8M < queued + MESSAGE_HEAD_LEN + length
  }

  /** A refused message leaves no trace: its header was refused too, or nothing was queued before it. */
  predicate TakenBack(queued: int) {
    queued == 0 || M8M < queued + MESSAGE_HEAD_LEN
  }

  /** What a receiver does not survive: a body above the limit, over which it closes, and none at all where
      its buffer ends, over which it aborts. */
  predicate Fatal(length: nat, cut: bool) {
    MESSAGE_LENGTH_LIMIT < length || (length == 0 && cut)
  }

  function Frame(m: Message): seq<Byte>
    requires Sendable(m)
  {
    Encode(m.id) + Encode(|m.body|) + m.body
  }

  /** A frame is the id, the length of the body, and the body. */
  lemma FrameLayout(m: Message)
    requires Sendable(m)
    ensures |Frame(m)| == MESSAGE_HEAD_LEN + |m.body|
    ensures Decode(Frame(m)[0..4]) == m.id && Decode(Frame(m)[4..8]) == |m.body| && Frame(m)[8..] == m.body
  {
    DecodeEncode(m.id);
    DecodeEncode(|m.body|);
    assert Frame(m)[0..4] == Encode(m.id) && Frame(m)[4..8] == Encode(|m.body|);
  }

  predicate AllSendable(ms: seq<Message>) {
    forall m :: m in ms ==> Sendable(m)
  }

  predicate AllAcceptable(ms: seq<Message>) {
    forall m :: m in ms ==> Acceptable(m)
  }

  function Stream(ms: seq<Message>): seq<Byte>
    requires AllSendable(ms)
  {
    if ms == [] then [] else Frame(ms[0]) + Stream(ms[1..])
  }

  lemma {:induction false} StreamConcat(ms: seq<Message>, more: seq<Message>)
    requires AllSendable(ms) && AllSendable(more)
    ensures AllSendable(ms + more) && Stream(ms + more) == Stream(ms) + Stream(more)
  {
    hide Frame;
    if ms == [] {
      assert ms + more == more;
    } else {
      StreamConcat(ms[1..], more);
      assert (ms + more)[1..] == ms[1..] + more;
    }
  }

  /** How one pass of the receiving loop ends: in want of more bytes, with the connection closed over a
      header, or in a failed assertion. */
  datatype Ending = Waiting | BadHeader | Abort

  datatype Parsed = Parsed(msgs: seq<Message>, rest: seq<Byte>, ending: Ending)

  function LengthField(buf: seq<Byte>): int
    requires MESSAGE_HEAD_LEN <= |buf|
  {
    Decode(buf[4..8])
  }

  function FirstMessage(buf: seq<Byte>): Message
    requires MESSAGE_HEAD_LEN <= |buf| && 0 <= LengthField(buf) <= |buf| - MESSAGE_HEAD_LEN
  {
    Message(Decode(buf[..4]), buf[8..8 + LengthField(buf)])
  }

  /** The buffer starts with a whole frame that a receiver accepts. */
  predicate HasMessage(buf: seq<Byte>) {
    && MESSAGE_HEAD_LEN <= |buf|
    && 0 <= LengthField(buf) <= MESSAGE_LENGTH_LIMIT
    && MESSAGE_HEAD_LEN + LengthField(buf) <= |buf|
  }

  function Tail(buf: seq<Byte>): (tail: seq<Byte>)
    requires HasMessage(buf)
    ensures |tail| < |buf|
    ensures |buf| == MESSAGE_HEAD_LEN ==> tail == []
  {
    buf[MESSAGE_HEAD_LEN + LengthField(buf)..]
  }

  /** The loop of do_read over the buffered bytes. A message without a body that is also the end of the
      buffer is dispatched; popping its empty body then fails, the block being gone with the header. */
  function Parse(buf: seq<Byte>): (p: Parsed)
    decreases |buf|
  {
    if |buf| < MESSAGE_HEAD_LEN then Parsed([], buf, Waiting)
    else if MESSAGE_LENGTH_LIMIT < LengthField(buf) || LengthField(buf) < 0 then Parsed([], buf, BadHeader)
    else if |buf| < MESSAGE_HEAD_LEN + LengthField(buf) then Parsed([], buf, Waiting)
    else if |buf| == MESSAGE_HEAD_LEN then Parsed([FirstMessage(buf)], [], Abort)
    else
      var p := Parse(Tail(buf));
      p.(msgs := [FirstMessage(buf)] + p.msgs)
  }

  lemma FirstFrame(buf: seq<Byte>)
    requires HasMessage(buf)
    ensures Acceptable(FirstMessage(buf)) && Frame(FirstMessage(buf)) + Tail(buf) == buf
  {
    EncodeDecode(buf[..4]);
    EncodeDecode(buf[4..8]);
    assert Frame(FirstMessage(buf)) == buf[..8 + LengthField(buf)];
  }

  lemma StreamCons(m: Message, ms: seq<Message>)
    requires Sendable(m) && AllSendable(ms)
    ensures AllSendable([m] + ms) && Stream([m] + ms) == Frame(m) + Stream(ms)
  {
    assert ([m] + ms)[1..] == ms;
  }

  /** Nothing is lost or made up: the messages and the rest are the bytes. */
  lemma {:induction false} ParseKeepsBytes(buf: seq<Byte>)
    ensures AllAcceptable(Parse(buf).msgs) && AllSendable(Parse(buf).msgs)
    ensures Stream(Parse(buf).msgs) + Parse(buf).rest == buf
    decreases |buf|
  {
    hide LengthField, FirstMessage, Tail, Frame;
    if HasMessage(buf) {
      FirstFrame(buf);
      if |buf| == MESSAGE_HEAD_LEN {
        StreamCons(FirstMessage(buf), []);
        assert Tail(buf) == [];
      } else {
        ParseKeepsBytes(Tail(buf));
        StreamCons(FirstMessage(buf), Parse(Tail(buf)).msgs);
      }
    }
  }

  /** What a pass leaves behind is less than one frame of the largest size. */
  lemma {:induction false} ResidueBound(buf: seq<Byte>)
    ensures Parse(buf).ending == Waiting ==> |Parse(buf).rest| < 65535
    ensures Parse(buf).ending == Abort ==> Parse(buf).rest == []
    decreases |buf|
  {
    hide LengthField, FirstMessage, Tail;
    if HasMessage(buf) && |buf| != MESSAGE_HEAD_LEN {
      ResidueBound(Tail(buf));
    }
  }

  /** The bytes of one frame, read back from any buffer that starts with them. */
  lemma HeaderOf(m: Message, buf: seq<Byte>)
    requires Sendable(m) && MESSAGE_HEAD_LEN <= |buf| && buf[..8] == Frame(m)[..8]
    ensures LengthField(buf) == |m.body| && Decode(buf[..4]) == m.id
  {
    DecodeEncode(m.id);
    DecodeEncode(|m.body|);
    assert buf[..4] == buf[..8][..4] == Frame(m)[..4] == Encode(m.id);
    assert buf[4..8] == buf[..8][4..] == Frame(m)[4..8] == Encode(|m.body|);
  }

  lemma FrameLength(m: Message)
    requires Sendable(m)
    ensures |Frame(m)| == MESSAGE_HEAD_LEN + |m.body|
  {
    DecodeEncode(m.id);
    DecodeEncode(|m.body|);
  }

  lemma ParseFrame(m: Message, tail: seq<Byte>)
    requires Acceptable(m)
    ensures m.body == [] && tail == [] ==> Parse(Frame(m) + tail) == Parsed([m], [], Abort)
    ensures !(m.body == [] && tail == []) ==>
              Parse(Frame(m) + tail) == Parse(tail).(msgs := [m] + Parse(tail).msgs)
  {
    var buf := Frame(m) + tail;
    FrameLength(m);
    assert buf[..8] == Frame(m)[..8];
    HeaderOf(m, buf);
    assert buf[8..8 + |m.body|] == m.body;
    assert FirstMessage(buf) == m;
    assert buf[8 + |m.body|..] == tail;
  }

  /** A proper part of a frame is kept until the rest of the frame is there. */
  lemma ParsePart(m: Message, part: seq<Byte>)
    requires Acceptable(m) && part < Frame(m)
    ensures Parse(part) == Parsed([], part, Waiting)
  {
    FrameLength(m);
    if 8 <= |part| {
      assert part[..8] == Frame(m)[..8];
      HeaderOf(m, part);
    }
  }

  /** A body above the limit closes the connection as soon as its header is complete. */
  lemma ParseOversized(m: Message, part: seq<Byte>)
    requires Sendable(m) && MESSAGE_LENGTH_LIMIT < |m.body| && part <= Frame(m)
    ensures Parse(part) == Parsed([], part, if |part| < MESSAGE_HEAD_LEN then Waiting else BadHeader)
  {
    if 8 <= |part| {
      FrameLength(m);
      assert part[..8] == Frame(m)[..8];
      HeaderOf(m, part);
    }
  }

  /** A receiver goes on to the bytes behind a message exactly if the message is not fatal to it. */
  lemma FatalMeans(m: Message, tail: seq<Byte>)
    requires Sendable(m)
    ensures Fatal(|m.body|, tail == []) ==>
              var p := Parse(Frame(m) + tail);
              p == if m.body == [] then Parsed([m], [], Abort) else Parsed([], Frame(m) + tail, BadHeader)
    ensures !Fatal(|m.body|, tail == []) ==>
              Parse(Frame(m) + tail) == Parse(tail).(msgs := [m] + Parse(tail).msgs)
  {
    if |m.body| <= MESSAGE_LENGTH_LIMIT {
      ParseFrame(m, tail);
    } else {
      FrameLength(m);
      assert (Frame(m) + tail)[..8] == Frame(m)[..8];
      HeaderOf(m, Frame(m) + tail);
    }
  }

  /** Where a pass ends: over a header whose length is negative or above 65527, in want of the rest of a
      header or of a body, or over a message without a body at the end of the buffer. */
  lemma {:induction false} EndingMeans(buf: seq<Byte>)
    ensures var p := Parse(buf);
            match p.ending
            case BadHeader => 8 <= |p.rest| && !(0 <= Decode(p.rest[4..8]) <= 65527)
            case Waiting => |p.rest| < 8 || (0 <= Decode(p.rest[4..8]) <= 65527 && |p.rest| < 8 + Decode(p.rest[4..8]))
            case Abort => p.rest == [] && p.msgs != [] && p.msgs[|p.msgs| - 1].body == []
    ensures Parse(buf).ending == Waiting && Parse(buf).rest == [] && buf != [] ==>
              Parse(buf).msgs != [] && Parse(buf).msgs[|Parse(buf).msgs| - 1].body != []
    decreases |buf|
  {
    hide FirstMessage, Tail, Decode;
    if HasMessage(buf) {
      if |buf| == MESSAGE_HEAD_LEN {
        EmptyBody(buf);
      } else {
        EndingMeans(Tail(buf));
        if Tail(buf) == [] {
          LastBody(buf);
        }
      }
    }
  }

  lemma EmptyBody(buf: seq<Byte>)
    requires HasMessage(buf) && |buf| == MESSAGE_HEAD_LEN
    ensures FirstMessage(buf).body == []
  {
  }

  lemma LastBody(buf: seq<Byte>)
    requires HasMessage(buf) && |buf| != MESSAGE_HEAD_LEN && Tail(buf) == []
    ensures FirstMessage(buf).body != []
  {
  }

  lemma AppendToFirst(a: seq<Byte>, b: seq<Byte>)
    requires HasMessage(a)
    ensures HasMessage(a + b) && FirstMessage(a + b) == FirstMessage(a) && Tail(a + b) == Tail(a) + b
  {
    assert (a + b)[4..8] == a[4..8] && (a + b)[..4] == a[..4];
    var len := LengthField(a);
    assert (a + b)[8..8 + len] == a[8..8 + len];
    assert (a + b)[8 + len..] == a[8 + len..] + b;
  }

  /** A pass over more bytes does what a pass over the first ones does, and then a pass over what that
      one kept followed by the new ones. */
  lemma {:induction false} ParseAppend(a: seq<Byte>, b: seq<Byte>)
    requires Parse(a).ending == Waiting
    ensures Parse(a + b) == Parse(Parse(a).rest + b).(msgs := Parse(a).msgs + Parse(Parse(a).rest + b).msgs)
    decreases |a|
  {
    hide LengthField, FirstMessage, Tail;
    var last := Parse(Parse(a).rest + b);
    if HasMessage(a) {
      AppendToFirst(a, b);
      ParseAppend(Tail(a), b);
      assert ([FirstMessage(a)] + Parse(Tail(a)).msgs) + last.msgs ==
          [FirstMessage(a)] + (Parse(Tail(a)).msgs + last.msgs);
    } else {
      assert [] + last.msgs == last.msgs;
    }
  }
}
