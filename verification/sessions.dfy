/** The receiving side over a whole connection: the byte stream arrives in pieces of any size, and each
    piece is one call of do_read. */
module Sessions {
  import opened BufferPool
  import opened Framing

  datatype Receiver = Receiver(dispatched: seq<Message>, residue: seq<Byte>, ending: Ending)

  function Receive(r: Receiver, piece: seq<Byte>): Receiver {
    if r.ending != Waiting then r
    else
      var p := Parse(r.residue + piece);
      Receiver(r.dispatched + p.msgs, p.rest, p.ending)
  }

  function Session(pieces: seq<seq<Byte>>): Receiver {
    if pieces == [] then Receiver([], [], Waiting)
    else Receive(Session(pieces[..|pieces| - 1]), pieces[|pieces| - 1])
  }

  function Flat(pieces: seq<seq<Byte>>): seq<Byte> {
    if pieces == [] then [] else Flat(pieces[..|pieces| - 1]) + pieces[|pieces| - 1]
  }

  /** However the bytes were cut, a connection that is still open has done what one pass over all of
      them would do. */
  lemma {:induction false} CuttingDoesNotMatter(pieces: seq<seq<Byte>>)
    requires Session(pieces).ending == Waiting
    ensures Parse(Flat(pieces)) == Parsed(Session(pieces).dispatched, Session(pieces).residue, Waiting)
  {
    if pieces != [] {
      var before := pieces[..|pieces| - 1];
      CuttingDoesNotMatter(before);
      ParseAppend(Flat(before), pieces[|pieces| - 1]);
    }
  }

  /** Any peer, any bytes: what is dispatched and kept are the bytes received, and less than one frame
      is kept. */
  lemma OpenSession(pieces: seq<seq<Byte>>)
    requires Session(pieces).ending == Waiting
    ensures AllAcceptable(Session(pieces).dispatched) && AllSendable(Session(pieces).dispatched)
    ensures Stream(Session(pieces).dispatched) + Session(pieces).residue == Flat(pieces)
    ensures |Session(pieces).residue| < 65535
  {
    CuttingDoesNotMatter(pieces);
    ParseKeepsBytes(Flat(pieces));
    ResidueBound(Flat(pieces));
  }

  /** How many messages lie wholly within the first n bytes of their stream. */
  function Arrived(ms: seq<Message>, n: nat): (k: nat)
    requires AllSendable(ms)
    ensures k <= |ms|
  {
    if ms == [] || n < |Frame(ms[0])| then 0 else 1 + Arrived(ms[1..], n - |Frame(ms[0])|)
  }

  function Size(ms: seq<Message>, k: nat): nat
    requires AllSendable(ms) && k <= |ms|
  {
    |Stream(ms[..k])|
  }

  lemma SizeUnfold(ms: seq<Message>, k: nat)
    requires AllSendable(ms) && 0 < k <= |ms|
    ensures Size(ms, k) == |Frame(ms[0])| + Size(ms[1..], k - 1)
  {
    assert ms[..k][1..] == ms[1..][..k - 1];
  }

  lemma {:induction false} ArrivedMeans(ms: seq<Message>, n: nat)
    requires AllSendable(ms)
    ensures var k := Arrived(ms, n);
            Size(ms, k) <= n && (k < |ms| ==> n < Size(ms, k + 1))
    ensures n == |Stream(ms)| ==> Arrived(ms, n) == |ms|
  {
    hide Frame;
    if ms != [] {
      if |Frame(ms[0])| <= n {
        ArrivedMeans(ms[1..], n - |Frame(ms[0])|);
        var k := Arrived(ms, n);
        SizeUnfold(ms, k);
        if k < |ms| {
          SizeUnfold(ms, k + 1);
        }
      } else {
        SizeUnfold(ms, 1);
      }
    }
  }

  /** The first n bytes end right behind a message without a body. */
  predicate EndsInEmpty(ms: seq<Message>, n: nat)
    requires AllSendable(ms)
  {
    ms != [] && |Frame(ms[0])| <= n
    && if n == |Frame(ms[0])| then ms[0].body == [] else EndsInEmpty(ms[1..], n - |Frame(ms[0])|)
  }

  lemma Sizes(ms: seq<Message>, i: nat)
    requires AllSendable(ms) && i < |ms|
    ensures Size(ms, i + 1) == |Frame(ms[0])| + Size(ms[1..], i)
    ensures i == 0 ==> Size(ms, i + 1) == |Frame(ms[0])|
    ensures i > 0 ==> Size(ms, i + 1) > |Frame(ms[0])|
  {
    hide Frame;
    SizeUnfold(ms, i + 1);
    assert ms[1..][..0] == [];
    if i > 0 {
      SizeUnfold(ms[1..], i);
      FrameLength(ms[1]);
    }
  }

  lemma {:induction false} EndsInEmptyMeans(ms: seq<Message>, n: nat)
    requires AllSendable(ms)
    ensures EndsInEmpty(ms, n) <==> exists i :: 0 <= i < |ms| && ms[i].body == [] && n == Size(ms, i + 1)
  {
    hide Frame, Size;
    if EndsInEmpty(ms, n) {
      var first := |Frame(ms[0])|;
      Sizes(ms, 0);
      if n != first {
        EndsInEmptyMeans(ms[1..], n - first);
        var i :| 0 <= i < |ms[1..]| && ms[1..][i].body == [] && n - first == Size(ms[1..], i + 1);
        Sizes(ms, i + 1);
        assert ms[i + 1].body == [];
      }
    }
    forall i | 0 <= i < |ms| && ms[i].body == [] && n == Size(ms, i + 1)
      ensures EndsInEmpty(ms, n)
    {
      Sizes(ms, i);
      if i > 0 {
        EndsInEmptyMeans(ms[1..], n - |Frame(ms[0])|);
        assert ms[1..][i - 1].body == [] && n - |Frame(ms[0])| == Size(ms[1..], i - 1 + 1);
      }
    }
  }

  /** One pass over the first bytes of a stream of acceptable messages. */
  lemma {:induction false} ParseStream(ms: seq<Message>, s: seq<Byte>)
    requires AllSendable(ms) && AllAcceptable(ms) && s <= Stream(ms)
    ensures Size(ms, Arrived(ms, |s|)) <= |s|
    ensures Parse(s) == Parsed(ms[..Arrived(ms, |s|)], s[Size(ms, Arrived(ms, |s|))..],
                               if EndsInEmpty(ms, |s|) then Abort else Waiting)
    decreases |ms|
  {
    hide Frame, Parse;
    ArrivedMeans(ms, |s|);
    if ms == [] {
      ParseNothing();
    } else {
      var m := ms[0];
      FrameLength(m);
      assert Stream(ms) == Frame(m) + Stream(ms[1..]);
      if |s| < |Frame(m)| {
        assert s == Stream(ms)[..|s|] == Frame(m)[..|s|];
        ParsePart(m, s);
      } else {
        var t := s[|Frame(m)|..];
        assert s[..|Frame(m)|] == Frame(m);
        assert s == Frame(m) + t;
        assert t == Stream(ms[1..])[..|t|];
        ParseFrame(m, t);
        ParseStream(ms[1..], t);
        var k := Arrived(ms[1..], |t|);
        SizeUnfold(ms, k + 1);
        assert ms[..k + 1] == [m] + ms[1..][..k];
        assert s[Size(ms, k + 1)..] == t[Size(ms[1..], k)..];
        if t == [] {
          ParseNothing();
          NoBytesNoMessages(ms[1..]);
        }
      }
    }
  }

  lemma ParseNothing()
    ensures Parse([]) == Parsed([], [], Waiting)
  {
  }

  lemma NoBytesNoMessages(ms: seq<Message>)
    requires AllSendable(ms)
    ensures Arrived(ms, 0) == 0 && !EndsInEmpty(ms, 0)
  {
    if ms != [] {
      FrameLength(ms[0]);
    }
  }

  /** Whatever the pieces are, the connection survives exactly when no piece ends right behind a message
      without a body; then the messages that arrived are dispatched, in order, and nothing else is. */
  lemma {:induction false} SessionOfStream(ms: seq<Message>, pieces: seq<seq<Byte>>)
    requires AllSendable(ms) && AllAcceptable(ms) && Flat(pieces) <= Stream(ms)
    ensures Session(pieces).ending == Waiting
            <==> forall j :: 0 < j <= |pieces| ==> !EndsInEmpty(ms, |Flat(pieces[..j])|)
    ensures Session(pieces).ending != BadHeader
    ensures Session(pieces).ending == Waiting ==>
              && Session(pieces).dispatched == ms[..Arrived(ms, |Flat(pieces)|)]
              && Stream(Session(pieces).dispatched) + Session(pieces).residue == Flat(pieces)
  {
    hide EndsInEmpty, Parse, Stream;
    if pieces == [] {
      NoBytesNoMessages(ms);
      assert Stream([]) == [] by { StreamOfNothing(); }
    } else {
      var n := |pieces| - 1;
      var before := pieces[..n];
      PrefixOfPrefix(Flat(before), pieces[n], Stream(ms));
      SessionOfStream(ms, before);
      assert forall j :: 0 < j <= n ==> pieces[..j] == before[..j];
      assert pieces[..n + 1] == pieces;
      if Session(before).ending == Waiting {
        CuttingDoesNotMatter(before);
        ParseAppend(Flat(before), pieces[n]);
        ParseStream(ms, Flat(pieces));
        if Session(pieces).ending == Waiting {
          OpenSession(pieces);
        }
      }
    }
  }

  lemma StreamOfNothing()
    ensures AllSendable([]) && Stream([]) == []
  {
  }

  lemma PrefixOfPrefix(a: seq<Byte>, b: seq<Byte>, whole: seq<Byte>)
    requires a + b <= whole
    ensures a <= whole
  {
    assert a == (a + b)[..|a|] == whole[..|a|];
  }

  /** Messages with a body of 1 to 65527 bytes survive any cutting of the stream: at every moment a
      prefix of them is dispatched and a proper part of the next frame is kept; with the last byte all of
      them are. */
  lemma RoundTrip(ms: seq<Message>, pieces: seq<seq<Byte>>)
    requires AllSendable(ms) && AllAcceptable(ms) && Flat(pieces) <= Stream(ms)
    requires forall m :: m in ms ==> m.body != []
    ensures Session(pieces).ending == Waiting
    ensures Session(pieces).dispatched <= ms
    ensures |Session(pieces).dispatched| < |ms| ==> Session(pieces).residue < Frame(ms[|Session(pieces).dispatched|])
    ensures Flat(pieces) == Stream(ms) ==> Session(pieces).dispatched == ms && Session(pieces).residue == []
  {
    hide Parse, EndsInEmpty, Stream, Session, Arrived, Frame, Flat;
    NoEmptyBody(ms, pieces);
    SessionOfStream(ms, pieces);
    var r := Session(pieces);
    var k := Arrived(ms, |Flat(pieces)|);
    ArrivedMeans(ms, |Flat(pieces)|);
    assert |r.dispatched| == k;
    KeptPart(ms, k, r.residue);
  }

  /** From sender to receiver: what was accepted is either written or still queued, the receiver has some
      of what was written, and it has made one pass's worth of it. Then it has dispatched the first of the
      accepted messages, and all of them once everything has arrived. */
  lemma SentIsDispatched(accepted: seq<Message>, written: seq<Byte>, queued: seq<Byte>,
                         received: seq<Byte>, dispatched: seq<Message>, residue: seq<Byte>)
    requires AllSendable(accepted) && AllAcceptable(accepted) && forall m :: m in accepted ==> m.body != []
    requires written + queued == Stream(accepted) && received <= written
    requires Parse(received) == Parsed(dispatched, residue, Waiting)
    ensures dispatched <= accepted
    ensures queued == [] && received == written ==> dispatched == accepted && residue == []
  {
    hide Parse, Stream, Frame, Arrived, EndsInEmpty;
    assert received <= Stream(accepted) by {
      assert received == written[..|received|] == (written + queued)[..|received|];
    }
    ParseStream(accepted, received);
    ArrivedMeans(accepted, |received|);
    if queued == [] && received == written {
      assert received == written + queued;
      assert accepted[..|accepted|] == accepted;
    }
  }

  lemma NoEmptyBody(ms: seq<Message>, pieces: seq<seq<Byte>>)
    requires AllSendable(ms) && forall m :: m in ms ==> m.body != []
    ensures forall j :: 0 < j <= |pieces| ==> !EndsInEmpty(ms, |Flat(pieces[..j])|)
  {
    hide EndsInEmpty, Flat;
    forall j | 0 < j <= |pieces|
      ensures !EndsInEmpty(ms, |Flat(pieces[..j])|)
    {
      EndsInEmptyMeans(ms, |Flat(pieces[..j])|);
    }
  }

  lemma KeptPart(ms: seq<Message>, k: nat, rest: seq<Byte>)
    requires AllSendable(ms) && k <= |ms| && Stream(ms[..k]) + rest <= Stream(ms)
    requires k < |ms| ==> |Stream(ms[..k])| + |rest| < Size(ms, k + 1)
    ensures k < |ms| ==> rest < Frame(ms[k])
    ensures k == |ms| ==> rest == []
  {
    hide Stream, Frame;
    if k == |ms| {
      assert ms[..k] == ms;
    } else {
      hide Size;
      AfterTheFirst(ms, k);
      CommonPrefix(Stream(ms[..k]), rest, Frame(ms[k]) + Stream(ms[k + 1..]));
      ShortPrefix(rest, Frame(ms[k]), Stream(ms[k + 1..]));
    }
  }

  lemma ShortPrefix(a: seq<Byte>, b: seq<Byte>, c: seq<Byte>)
    requires a <= b + c && |a| < |b|
    ensures a < b
  {
    assert a == (b + c)[..|a|] == b[..|a|];
  }

  lemma AfterTheFirst(ms: seq<Message>, k: nat)
    requires AllSendable(ms) && k < |ms|
    ensures Stream(ms) == Stream(ms[..k]) + (Frame(ms[k]) + Stream(ms[k + 1..]))
    ensures Size(ms, k + 1) == |Stream(ms[..k])| + |Frame(ms[k])|
  {
    hide Frame;
    StreamConcat(ms[..k], ms[k..]);
    assert ms == ms[..k] + ms[k..];
    assert ms[k..][1..] == ms[k + 1..];
    StreamConcat(ms[..k], [ms[k]]);
    assert ms[..k + 1] == ms[..k] + [ms[k]];
    StreamOfOne(ms[k]);
  }

  lemma StreamOfOne(m: Message)
    requires Sendable(m)
    ensures Stream([m]) == Frame(m)
  {
    assert [m][1..] == [];
  }

  lemma CommonPrefix(a: seq<Byte>, b: seq<Byte>, c: seq<Byte>)
    requires a + b <= a + c
    ensures b <= c
  {
    assert b == (a + b)[|a|..] && c == (a + c)[|a|..];
  }

  /** A message above the limit: those before it are dispatched, and the connection is closed as soon as
      its header is there. */
  lemma OversizedCloses(ms: seq<Message>, m: Message, part: seq<Byte>)
    requires AllSendable(ms) && AllAcceptable(ms) && Sendable(m) && MESSAGE_LENGTH_LIMIT < |m.body|
    requires part <= Frame(m) && part != []
    ensures Parse(Stream(ms) + part) == Parsed(ms, part, if |part| < MESSAGE_HEAD_LEN then Waiting else BadHeader)
  {
    hide Parse, Frame;
    if ms == [] {
      assert Stream(ms) + part == part;
      ParseOversized(m, part);
    } else {
      OversizedCloses(ms[1..], m, part);
      assert Stream(ms) + part == Frame(ms[0]) + (Stream(ms[1..]) + part);
      ParseFrame(ms[0], Stream(ms[1..]) + part);
      assert ms == [ms[0]] + ms[1..];
    }
  }
}
