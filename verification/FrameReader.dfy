/** `hx.bridge.codec.FrameReader`: frames off a stream that arrives in pieces. */
module FrameReader {
  import opened Utf8
  import opened Json
  import opened Codec
  import opened Text

  /** A frame, a peer that closed, in the middle of one or not, or bytes that are
      no frame. */
  datatype Received = Got(header: Header, body: seq<Byte>) | PeerClosed(midFrame: bool) | NotAFrame

  type Message = (Header, seq<Byte>)

  ghost predicate Sendable(m: Message) {
    Distinct(m.0) && EncodeFrame(m.0, m.1).Frame?
  }

  ghost function Stream(sent: seq<Message>): seq<Byte>
    requires forall i :: 0 <= i < |sent| ==> Sendable(sent[i])
  {
    if sent == [] then []
    else
      assert Sendable(sent[0]);
      EncodeFrame(sent[0].0, sent[0].1).bytes + Stream(sent[1..])
  }

  class FrameReader {
    /** What each `recv` will bring, none of it empty, and then the end. */
    const chunks: seq<seq<Byte>>
    var next: nat
    var buf: seq<Byte>

    ghost predicate Valid()
      reads this
    {
      next <= |chunks| && forall i :: 0 <= i < |chunks| ==> chunks[i] != []
    }

    /** Every byte not yet read as part of a frame. */
    ghost function Unread(): seq<Byte>
      requires Valid()
      reads this
    {
      buf + Concat(chunks[next..])
    }

    constructor (chunks: seq<seq<Byte>>)
      requires forall i :: 0 <= i < |chunks| ==> chunks[i] != []
      ensures Valid() && Unread() == Concat(chunks)
    {
      this.chunks, next, buf := chunks, 0, [];
      new;
      assert chunks[0..] == chunks && [] + Concat(chunks) == Concat(chunks);
    }

    method Recv() returns (chunk: seq<Byte>)
      requires Valid()
      modifies `next
      ensures Valid() && chunk + Concat(chunks[next..]) == Concat(chunks[old(next)..])
      ensures chunk == [] <==> old(next) == |chunks|
      ensures chunk == [] ==> next == old(next)
      ensures chunk != [] ==> next == old(next) + 1
    {
      if next == |chunks| {
        return [];
      }
      chunk := chunks[next];
      next := next + 1;
    }

    /** One frame. What is read is decided by the bytes alone, not by how they were
        cut; what follows the frame is all still there. */
    method Read() returns (r: Received)
      requires Valid()
      modifies this
      ensures Valid()
      ensures match DecodeFrame(old(Unread()))
        case Decoded(h, b, n) => r == Got(h, b) && Unread() == old(Unread())[n..]
        case Incomplete => r == PeerClosed(old(Unread()) != [])
        case BadFrame => r == NotAFrame
    {
      hide ReadPayload, Unpack;
      ghost var all := Unread();
      while true
        invariant Valid() && Unread() == all
        decreases |chunks| - next
      {
        ghost var rest := Concat(chunks[next..]);
        if |buf| >= PREFIX_SIZE {
          var length := Unpack(buf);
          UnpackPrefix(buf, rest);
          if length > MAX_FRAME {
            return NotAFrame;
          }
          var end := PREFIX_SIZE + length;
          if |buf| >= end {
            var frame := buf[..end];
            UnpackPrefix(frame, buf[end..]);
            assert buf == frame + buf[end..] && all == frame + (buf[end..] + rest);
            VerdictStands(frame, buf[end..] + rest);
            match DecodeFrame(frame) {
              case Decoded(header, body, consumed) =>
                buf := buf[consumed..];
                return Got(header, body);
              case _ =>
                return NotAFrame;
            }
          }
        }
        var chunk := Recv();
        if chunk == [] {
          assert chunks[next..] == [] && all == buf;
          return PeerClosed(buf != []);
        }
        assert buf + chunk + Concat(chunks[next..]) == buf + (chunk + Concat(chunks[next..]));
        buf := buf + chunk;
      }
    }

    /** However the concatenation of encoded frames is cut, reading gives exactly
        those frames in order, and leaves exactly what came after them. */
    method ReadAll(ghost sent: seq<Message>, count: nat, ghost tail: seq<Byte>) returns (got: seq<Message>)
      requires Valid() && count == |sent|
      requires forall i :: 0 <= i < |sent| ==> Sendable(sent[i])
      requires Unread() == Stream(sent) + tail
      modifies this
      ensures Valid() && got == sent && Unread() == tail
    {
      hide EncodeFrame, DecodeFrame, Distinct;
      got := [];
      assert sent[0..] == sent;
      for i := 0 to count
        invariant Valid() && got == sent[..i] && Unread() == Stream(sent[i..]) + tail
      {
        ghost var (h, body) := sent[i];
        assert Sendable(sent[i]);
        ghost var f := EncodeFrame(h, body).bytes;
        assert sent[i..][1..] == sent[i + 1..];
        assert Unread() == f + (Stream(sent[i + 1..]) + tail);
        FrameRoundTrip(h, body, Stream(sent[i + 1..]) + tail);
        var r := Read();
        assert r == Got(h, body);
        got := got + [(r.header, r.body)];
      }
      assert Stream(sent[count..]) == [] && [] + tail == tail;
    }
  }
}
