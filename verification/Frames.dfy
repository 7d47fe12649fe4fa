/** Length-prefixed frames: a big-endian u32 length followed by that many bytes of JSON. */
module Frames {
  import opened Base

  const MAX_FRAME_SIZE := 64 * 1024 * 1024

  // JSON is abstract: any writer, and any reader that may reject.
  type Writer<!M> = M -> Bytes
  type Reader<!M> = Bytes -> Option<M>

  datatype Fault = FrameTooLarge | InvalidJson

  datatype Decoded<M> = NeedMore | TooLarge | BadJson(rest: Bytes) | Got(msg: M, rest: Bytes)

  // One attempt to take a frame off the front of a buffer.
  function DecodeOne<M>(read: Reader<M>, buf: Bytes): Decoded<M> {
    if |buf| < 4 then NeedMore
    else
      var len := FromBigEndian(buf[..4]);
      if len > MAX_FRAME_SIZE then TooLarge
      else if |buf| < 4 + len then NeedMore
      else
        match read(buf[4..4 + len])
        case None => BadJson(buf[4 + len..])
        case Some(m) => Got(m, buf[4 + len..])
  }

  predicate Encodable<M>(write: Writer<M>, m: M) {
    |write(m)| <= MAX_FRAME_SIZE
  }

  function Frame<M>(write: Writer<M>, m: M): Bytes
    requires Encodable(write, m)
  {
    BigEndian(|write(m)|) + write(m)
  }

  class Buffer {
    var bytes: Bytes

    constructor ()
      ensures bytes == []
    {
      bytes := [];
    }
  }

  class Codec<!M> {
    const write: Writer<M>
    const read: Reader<M>

    constructor (write: Writer<M>, read: Reader<M>)
      ensures this.write == write && this.read == read
    {
      this.write := write;
      this.read := read;
    }

    // Ok(None) asks for more bytes; only a frame that is taken off, or whose JSON is bad, is consumed.
    method Decode(src: Buffer) returns (r: Result<Option<M>, Fault>)
      modifies src
      ensures match DecodeOne(read, old(src.bytes))
              case NeedMore => r == Ok(None) && src.bytes == old(src.bytes)
              case TooLarge => r == Err(FrameTooLarge) && src.bytes == old(src.bytes)
              case BadJson(rest) => r == Err(InvalidJson) && src.bytes == rest
              case Got(m, rest) => r == Ok(Some(m)) && src.bytes == rest
    {
      if |src.bytes| < 4 {
        return Ok(None);
      }
      var len := FromBigEndian(src.bytes[..4]);
      if len > MAX_FRAME_SIZE {
        return Err(FrameTooLarge);
      }
      if |src.bytes| < 4 + len {
        return Ok(None);
      }
      src.bytes := src.bytes[4..];
      var data := src.bytes[..len];
      src.bytes := src.bytes[len..];
      assert data == old(src.bytes)[4..4 + len] && src.bytes == old(src.bytes)[4 + len..];
      match read(data) {
        case None => return Err(InvalidJson);
        case Some(m) => return Ok(Some(m));
      }
    }

    method Encode(item: M, dst: Buffer) returns (ok: bool)
      modifies dst
      ensures ok <==> Encodable(write, item)
      ensures dst.bytes == if ok then old(dst.bytes) + Frame(write, item) else old(dst.bytes)
    {
      var data := write(item);
      if |data| > MAX_FRAME_SIZE {
        return false;
      }
      dst.bytes := dst.bytes + BigEndian(|data|);
      dst.bytes := dst.bytes + data;
      return true;
    }

    // What the framed reader does when bytes have arrived: decode until more are needed or it fails.
    method DrainBuffer(src: Buffer) returns (msgs: seq<M>, failed: bool)
      modifies src
      ensures var d := Drain(read, old(src.bytes));
              msgs == d.msgs && failed == d.failed && (!failed ==> src.bytes == d.rest)
    {
      hide Drain, DecodeOne;
      msgs, failed := [], false;
      while true
        invariant var d, e := Drain(read, old(src.bytes)), Drain(read, src.bytes);
                  !failed && d.msgs == msgs + e.msgs && d.failed == e.failed && d.rest == e.rest
        decreases |src.bytes|
      {
        DrainUnfold(read, src.bytes);
        DecodeShrinks(read, src.bytes);
        var r := Decode(src);
        match r {
          case Err(_) => return msgs, true;
          case Ok(None) => return;
          case Ok(Some(m)) => msgs := msgs + [m];
        }
      }
    }
  }

  datatype Drained<M> = Drained(msgs: seq<M>, rest: Bytes, failed: bool)

  function Drain<M>(read: Reader<M>, buf: Bytes): Drained<M>
    decreases |buf|
  {
    match DecodeOne(read, buf)
    case NeedMore => Drained([], buf, false)
    case TooLarge => Drained([], [], true)
    case BadJson(_) => Drained([], [], true)
    case Got(m, rest) =>
      var d := Drain(read, rest);
      Drained([m] + d.msgs, d.rest, d.failed)
  }

  // A reader fed one piece after the other, drained after each; a failure ends the stream.
  function Fed<M>(read: Reader<M>, pieces: seq<Bytes>): Drained<M> {
    if pieces == [] then Drained([], [], false)
    else
      var before := Fed(read, pieces[..|pieces| - 1]);
      if before.failed then before
      else
        var d := Drain(read, before.rest + pieces[|pieces| - 1]);
        Drained(before.msgs + d.msgs, d.rest, d.failed)
  }

  // How a buffer is read: four bytes of length, most significant first, then that many bytes of message. A
  // length above 64 MiB is refused at once, anything shorter than announced waits, and a complete
  // frame is taken off whether its message can be read or not.
  lemma {:induction false} DecodesAsFramed<M>(read: Reader<M>, n: u32, tail: Bytes)
    ensures var d := DecodeOne(read, BigEndian(n) + tail);
            && (0x400_0000 < n ==> d == TooLarge)
            && (n <= 0x400_0000 && |tail| < n ==> d == NeedMore)
            && (n <= 0x400_0000 && n <= |tail| ==>
                 d == match read(tail[..n]) case None => BadJson(tail[n..]) case Some(m) => Got(m, tail[n..]))
  {
    var buf := BigEndian(n) + tail;
    BigEndianRoundTrip(n);
    hide BigEndian, FromBigEndian;
    assert buf[..4] == BigEndian(n);
    if n <= |tail| {
      assert buf[4..4 + n] == tail[..n] && buf[4 + n..] == tail[n..];
    }
  }

  // Fewer than four bytes wait, and any four bytes are the length of what follows.
  lemma {:induction false} HeaderOrWait<M>(read: Reader<M>, buf: Bytes)
    ensures |buf| < 4 ==> DecodeOne(read, buf) == NeedMore
    ensures 4 <= |buf| ==> exists n: u32 :: buf == BigEndian(n) + buf[4..]
  {
    if 4 <= |buf| {
      BigEndianValue(buf[..4]);
      assert buf == BigEndian(FromBigEndian(buf[..4])) + buf[4..];
    }
  }

  lemma {:induction false} DecodeMore<M>(read: Reader<M>, a: Bytes, b: Bytes)
    ensures match DecodeOne(read, a)
            case NeedMore => true
            case TooLarge => DecodeOne(read, a + b) == TooLarge
            case BadJson(rest) => DecodeOne(read, a + b) == BadJson(rest + b)
            case Got(m, rest) => DecodeOne(read, a + b) == Got(m, rest + b) && |rest| < |a|
  {
    if |a| >= 4 {
      assert (a + b)[..4] == a[..4];
      var len := FromBigEndian(a[..4]);
      if len <= MAX_FRAME_SIZE && 4 + len <= |a| {
        assert (a + b)[4..4 + len] == a[4..4 + len];
        assert (a + b)[4 + len..] == a[4 + len..] + b;
      }
    }
  }

  lemma {:induction false} DecodeShrinks<M>(read: Reader<M>, buf: Bytes)
    ensures DecodeOne(read, buf).Got? ==> |DecodeOne(read, buf).rest| < |buf|
  {
  }

  lemma {:induction false} DrainUnfold<M>(read: Reader<M>, buf: Bytes)
    ensures match DecodeOne(read, buf)
            case NeedMore => Drain(read, buf) == Drained([], buf, false)
            case TooLarge => Drain(read, buf) == Drained([], [], true)
            case BadJson(_) => Drain(read, buf) == Drained([], [], true)
            case Got(m, rest) =>
              var d := Drain(read, rest); Drain(read, buf) == Drained([m] + d.msgs, d.rest, d.failed)
  {
  }

  // Draining early and going on later is the same as draining once.
  lemma {:induction false} DrainAppend<M>(read: Reader<M>, a: Bytes, b: Bytes)
    ensures var d := Drain(read, a);
            if d.failed then Drain(read, a + b) == d
            else var e := Drain(read, d.rest + b); Drain(read, a + b) == Drained(d.msgs + e.msgs, e.rest, e.failed)
    decreases |a|
  {
    hide DecodeOne, Drain;
    DecodeMore(read, a, b);
    DrainUnfold(read, a);
    DrainUnfold(read, a + b);
    match DecodeOne(read, a)
    case Got(m, rest) =>
      DrainAppend(read, rest, b);
    case _ =>
  }

  // Framing ignores fragmentation: on every byte stream, however it is cut, the reader yields the same
  // messages, fails in the same cases and keeps the same rest as if it had seen the stream at once.
  lemma {:induction false} FragmentationIsInvisible<M>(read: Reader<M>, pieces: seq<Bytes>)
    ensures Fed(read, pieces) == Drain(read, Concat(pieces))
  {
    if pieces != [] {
      var before, last := pieces[..|pieces| - 1], pieces[|pieces| - 1];
      FragmentationIsInvisible(read, before);
      assert pieces == before + [last];
      ConcatLast(before, last);
      DrainAppend(read, Concat(before), last);
    }
  }

  // ---- Streams of encoded messages ----

  ghost predicate Inverse<M(!new)>(write: Writer<M>, read: Reader<M>) {
    forall m :: read(write(m)) == Some(m)
  }

  ghost predicate AllEncodable<M(!new)>(write: Writer<M>, msgs: seq<M>) {
    forall m :: m in msgs ==> Encodable(write, m)
  }

  ghost function Encoding<M(!new)>(write: Writer<M>, msgs: seq<M>): Bytes
    requires AllEncodable(write, msgs)
  {
    if msgs == [] then [] else Frame(write, msgs[0]) + Encoding(write, msgs[1..])
  }

  lemma {:induction false} DecodeFrame<M(!new)>(write: Writer<M>, read: Reader<M>, m: M, rest: Bytes)
    requires Inverse(write, read) && Encodable(write, m)
    ensures DecodeOne(read, Frame(write, m) + rest) == Got(m, rest)
  {
    var data := write(m);
    var buf := Frame(write, m) + rest;
    BigEndianRoundTrip(|data|);
    assert buf[..4] == BigEndian(|data|);
    assert buf[4..4 + |data|] == data;
    assert buf[4 + |data|..] == rest;
  }

  lemma {:induction false} PartialFrameWaits<M>(write: Writer<M>, read: Reader<M>, m: M, part: Bytes)
    requires Encodable(write, m) && part < Frame(write, m)
    ensures DecodeOne(read, part) == NeedMore
  {
    if |part| >= 4 {
      BigEndianRoundTrip(|write(m)|);
      assert part[..4] == BigEndian(|write(m)|);
    }
  }

  lemma {:induction false} EncodingCons<M(!new)>(write: Writer<M>, m: M, msgs: seq<M>)
    requires AllEncodable(write, msgs) && Encodable(write, m)
    ensures AllEncodable(write, [m] + msgs)
    ensures Encoding(write, [m] + msgs) == Frame(write, m) + Encoding(write, msgs)
  {
    assert ([m] + msgs)[1..] == msgs;
  }

  // What a reader has made of the part of an encoded stream it has seen: exactly the messages whose
  // frames are complete, in order, and a buffer that is a proper prefix of the next frame.
  ghost predicate CompleteFrames<M(!new)>(write: Writer<M>, msgs: seq<M>, part: Bytes, d: Drained<M>)
    requires AllEncodable(write, msgs)
  {
    var k := |d.msgs|;
    !d.failed && d.msgs <= msgs && AllEncodable(write, d.msgs) && part == Encoding(write, d.msgs) + d.rest &&
    (if k == |msgs| then d.rest == [] else d.rest < Frame(write, msgs[k]))
  }

  lemma {:induction false} CompleteOneMore<M(!new)>(write: Writer<M>, m: M, msgs: seq<M>, part: Bytes, d: Drained<M>)
    requires AllEncodable(write, msgs) && Encodable(write, m) && CompleteFrames(write, msgs, part, d)
    ensures AllEncodable(write, [m] + msgs)
    ensures CompleteFrames(write, [m] + msgs, Frame(write, m) + part, Drained([m] + d.msgs, d.rest, d.failed))
  {
    EncodingCons(write, m, msgs);
    EncodingCons(write, m, d.msgs);
    hide Frame, Encoding;
    assert Frame(write, m) + (Encoding(write, d.msgs) + d.rest) == Frame(write, m) + Encoding(write, d.msgs) + d.rest;
  }

  // After any prefix of an encoded stream has been read, however it arrived, the reader has completed
  // just the frames that are all there.
  lemma {:induction false} PrefixYieldsCompleteFrames<M(!new)>(write: Writer<M>, read: Reader<M>, msgs: seq<M>,
                                                      part: Bytes)
    requires Inverse(write, read) && AllEncodable(write, msgs) && part <= Encoding(write, msgs)
    ensures CompleteFrames(write, msgs, part, Drain(read, part))
    decreases |msgs|
  {
    hide DecodeOne, Drain, Frame, CompleteFrames;
    DrainUnfold(read, part);
    if msgs == [] {
      NothingLeft(write, read);
    } else {
      var first, others := Frame(write, msgs[0]), msgs[1..];
      assert msgs == [msgs[0]] + others;
      if |part| < |first| {
        PartialFrameWaits(write, read, msgs[0], part);
        NoneComplete(write, msgs, part);
      } else {
        var tail := part[|first|..];
        assert part == first + tail;
        assert Encoding(write, msgs)[|first|..] == Encoding(write, others);
        DecodeFrame(write, read, msgs[0], tail);
        PrefixYieldsCompleteFrames(write, read, others, tail);
        CompleteOneMore(write, msgs[0], others, tail, Drain(read, tail));
      }
    }
  }

  lemma {:induction false} NothingLeft<M(!new)>(write: Writer<M>, read: Reader<M>)
    ensures CompleteFrames(write, [], [], Drain(read, []))
  {
  }

  lemma {:induction false} NoneComplete<M(!new)>(write: Writer<M>, msgs: seq<M>, part: Bytes)
    requires AllEncodable(write, msgs) && msgs != [] && part < Frame(write, msgs[0])
    ensures CompleteFrames(write, msgs, part, Drained([], part, false))
  {
    var none: seq<M> := [];
    assert Encoding(write, none) + part == part;
  }

  // However an encoded stream is cut into pieces, feeding them yields exactly its messages.
  lemma {:induction false} StreamRoundTrip<M(!new)>(write: Writer<M>, read: Reader<M>, msgs: seq<M>, pieces: seq<Bytes>)
    requires Inverse(write, read) && AllEncodable(write, msgs) && Concat(pieces) == Encoding(write, msgs)
    ensures Fed(read, pieces) == Drained(msgs, [], false)
  {
    FragmentationIsInvisible(read, pieces);
    PrefixYieldsCompleteFrames(write, read, msgs, Encoding(write, msgs));
    var d := Drain(read, Encoding(write, msgs));
    EncodingGrows(write, msgs, d.msgs);
  }

  // A frame whose message cannot be read ends the stream, after everything before it was delivered.
  lemma {:induction false} BadFrameEndsStream<M(!new)>(write: Writer<M>, read: Reader<M>, msgs: seq<M>,
                                              bad: Bytes, rest: Bytes)
    requires Inverse(write, read) && AllEncodable(write, msgs) && |bad| <= 0x400_0000 && read(bad) == None
    ensures Drain(read, Encoding(write, msgs) + (BigEndian(|bad|) + bad + rest)) == Drained(msgs, [], true)
  {
    hide DecodeOne, Drain, Frame;
    var tail := BigEndian(|bad|) + bad + rest;
    var stream := Encoding(write, msgs) + tail;
    DrainUnfold(read, stream);
    if msgs == [] {
      DecodesAsFramed(read, |bad|, bad + rest);
      assert stream == BigEndian(|bad|) + (bad + rest) && (bad + rest)[..|bad|] == bad;
    } else {
      var others := msgs[1..];
      DecodeFrame(write, read, msgs[0], Encoding(write, others) + tail);
      assert stream == Frame(write, msgs[0]) + (Encoding(write, others) + tail);
      BadFrameEndsStream(write, read, others, bad, rest);
      assert [msgs[0]] + others == msgs;
    }
  }

  // Leaving messages out makes the encoding shorter by at least a frame.
  lemma {:induction false} EncodingGrows<M(!new)>(write: Writer<M>, msgs: seq<M>, first: seq<M>)
    requires AllEncodable(write, msgs) && first <= msgs && AllEncodable(write, first)
    ensures first < msgs ==>
              |Encoding(write, first)| + |Frame(write, msgs[|first|])| <= |Encoding(write, msgs)|
    decreases |first|
  {
    if first != [] {
      assert first[1..] <= msgs[1..];
      EncodingGrows(write, msgs[1..], first[1..]);
    }
  }
}
