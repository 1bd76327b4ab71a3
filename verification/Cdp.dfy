/** `hx.crawl.cdp.Connection`: replies and events off one NUL-delimited stream. */
module Cdp {
  import opened Options
  import opened Utf8
  import opened Text

  /** The id of a reply: one that compares equal to a number, or another. */
  datatype Id = Number(n: int) | Other(text: seq<Byte>)

  /** What one frame is filed as: somebody's reply, or an event. */
  datatype Message = Reply(id: Id, error: bool, body: seq<Byte>) | Event(body: seq<Byte>)

  /** What `json.loads` and the test for "id" make of a frame. What is no JSON is
      dropped. An object is a reply or an event; so is a list or a string without
      "id" in it an event. A number, a literal, and a list or a string with "id" in
      it raise a TypeError out of the loop, as does an id that cannot be a key. */
  datatype Loaded = NotJson | Files(message: Message) | Raises

  /** What one turn of the selector and the read comes to. */
  datatype Arrival = Bytes(chunk: seq<Byte>) | Silence | Gone

  datatype Pumped = Read | TimedOut | Closed | Broke

  /** A `CdpError` of the peer's, a deadline, a pipe that is gone, a frame that
      raised, or the result. */
  datatype Answer = Result(reply: Message) | PeerError(reply: Message) | Timeout | NoPeer | BadFrame

  const NUL: Byte := 0

  /** The bytes received, those not yet taken, and the frames taken. */
  datatype Stage = Stage(received: seq<Byte>, buf: seq<Byte>, filed: seq<seq<Byte>>)

  class Connection {
    const parse: seq<Byte> -> Loaded
    /** What the pipe will do at each read, the deadline passing after the last. */
    const arrivals: seq<Arrival>
    const writes: nat -> bool
    var next: nat
    var nextId: nat
    var buf: seq<Byte>
    var replies: map<Id, Message>
    var events: seq<Message>
    ghost var received: seq<Byte>
    ghost var filed: seq<seq<Byte>>
    ghost var handedOut: seq<Message>

    /** One frame as it is filed: an empty one, one that does not parse and one that
        raises are not. */
    function Filed(frame: seq<Byte>): Option<Message> {
      if frame != [] && parse(frame).Files? then Some(parse(frame).message) else None
    }

    predicate Breaks(frame: seq<Byte>) {
      frame != [] && parse(frame).Raises?
    }

    /** The id-less messages among some frames, in order. */
    function EventsOf(frames: seq<seq<Byte>>): seq<Message> {
      if frames == [] then []
      else
        var rest, last := EventsOf(frames[..|frames| - 1]), Filed(frames[|frames| - 1]);
        if last.Some? && last.value.Event? then rest + [last.value] else rest
    }

    /** The frames a stream has completed. */
    function Frames(stream: seq<Byte>): seq<seq<Byte>> {
      var parts := Split(stream, NUL);
      parts[..|parts| - 1]
    }

    /** What is handed out does not depend on where a stretch of frames is cut, and of
        one frame it is the event in it, if it is one; a frame raises where there is
        something in it and reading that raises. */
    lemma {:induction false} EventsOfEach(a: seq<seq<Byte>>, b: seq<seq<Byte>>, frame: seq<Byte>)
      ensures EventsOf(a + b) == EventsOf(a) + EventsOf(b)
      ensures Breaks(frame) <==> frame != [] && parse(frame).Raises?
      ensures EventsOf([frame]) ==
        if frame != [] && parse(frame).Files? && parse(frame).message.Event? then [parse(frame).message] else []
      decreases |b|
    {
      assert [frame][..0] == [];
      if b == [] {
        assert a + b == a && EventsOf(a) + [] == EventsOf(a);
      } else {
        var n := |b| - 1;
        EventsOfEach(a, b[..n], frame);
        assert (a + b)[..|a| + n] == a + b[..n];
      }
    }

    /** The last reply of some frames to one id. */
    function LastReply(frames: seq<seq<Byte>>, id: Id): Option<Message> {
      if frames == [] then None
      else
        var m := Filed(frames[|frames| - 1]);
        if m.Some? && m.value.Reply? && m.value.id == id then m else LastReply(frames[..|frames| - 1], id)
    }

    /** The replies held once some frames have been filed. */
    ghost predicate FiledOver(was: map<Id, Message>, now: map<Id, Message>, frames: seq<seq<Byte>>) {
      forall id ::
        && (id in now <==> id in was || LastReply(frames, id).Some?)
        && (id in now ==> now[id] == if LastReply(frames, id).Some? then LastReply(frames, id).value else was[id])
    }

    function AnswerOf(m: Message): Answer
      requires m.Reply?
    {
      if m.error then PeerError(m) else Result(m)
    }

    /** What a call that waits for `id` comes to, by what arrives from the `i`-th read
        on: the first read that completes a reply to it, unless a frame of that read
        raises, or the read that brings none, or none any more. */
    function Await(bytes: seq<Byte>, i: nat, id: Id): Answer
      requires i <= |arrivals|
      decreases |arrivals| - i
    {
      if i == |arrivals| then Timeout
      else match arrivals[i]
        case Silence => Timeout
        case Gone => NoPeer
        case Bytes(chunk) =>
          if chunk == [] then NoPeer
          else
            var frames := Frames(bytes + chunk);
            if !NoneBreaks(frames) then BadFrame
            else
              LastReplyIs(frames, id);
              if LastReply(frames, id).Some? then AnswerOf(LastReply(frames, id).value)
              else Await(Last(bytes + chunk, NUL), i + 1, id)
    }

    lemma FiledOverNone(was: map<Id, Message>)
      ensures FiledOver(was, was, [])
    {
    }

    lemma FiledOverMore(a: map<Id, Message>, b: map<Id, Message>, c: map<Id, Message>,
                        frames: seq<seq<Byte>>, frame: seq<Byte>)
      requires FiledOver(a, b, frames) && FiledOver(b, c, [frame])
      ensures FiledOver(a, c, frames + [frame])
    {
      assert (frames + [frame])[..|frames|] == frames && [frame][..0] == [];
      forall id ensures LastReply(frames + [frame], id)
        == if LastReply([frame], id).Some? then LastReply([frame], id) else LastReply(frames, id)
      {
      }
    }

    /** The frames taken since, of a stream that has been taken as far as `filed`. */
    lemma TakenSince(was: seq<seq<Byte>>, bytes: seq<Byte>, now: seq<seq<Byte>>, left: seq<Byte>)
      requires was + Split(bytes, NUL) == now + Split(left, NUL) && was <= now
      ensures now[|was|..] <= Frames(bytes)
      ensures NUL !in left ==> now == was + Frames(bytes) && left == Last(bytes, NUL)
    {
      hide Split;
      var all, since := Split(bytes, NUL), now[|was|..];
      assert now == was + since;
      assert (was + since) + Split(left, NUL) == was + (since + Split(left, NUL));
      assert (was + all)[|was|..] == all && (was + (since + Split(left, NUL)))[|was|..] == since + Split(left, NUL);
      if NUL !in left {
        SplitNone(left, NUL);
        assert (since + [left])[..|since|] == since;
      }
    }

    predicate NoneBreaks(frames: seq<seq<Byte>>) {
      forall k :: 0 <= k < |frames| ==> !Breaks(frames[k])
    }

    lemma {:induction false} LastReplyIs(frames: seq<seq<Byte>>, id: Id)
      ensures LastReply(frames, id).Some? ==>
        LastReply(frames, id).value.Reply? && LastReply(frames, id).value.id == id
    {
      if frames != [] {
        LastReplyIs(frames[..|frames| - 1], id);
      }
    }

    /** What arrives from the `i`-th read on, in at most `ticks` reads that bring
        something. */
    function Incoming(i: nat, ticks: nat): seq<Byte>
      requires i <= |arrivals|
      decreases ticks
    {
      if ticks == 0 || i == |arrivals| || !arrivals[i].Bytes? || arrivals[i].chunk == [] then []
      else arrivals[i].chunk + Incoming(i + 1, ticks - 1)
    }

    /** The frames that bytes complete which arrive behind some. */
    function Arriving(bytes: seq<Byte>, more: seq<Byte>): seq<seq<Byte>> {
      if more == [] then [] else Frames(bytes + more)
    }

    lemma FramesOnward(bytes: seq<Byte>, more: seq<Byte>)
      ensures Frames(bytes + more) == Frames(bytes) + Frames(Last(bytes, NUL) + more)
      ensures Last(bytes + more, NUL) == Last(Last(bytes, NUL) + more, NUL)
    {
      SplitConcat(bytes, more, NUL);
      hide Split;
      var first, rest := Frames(bytes), Split(Last(bytes, NUL) + more, NUL);
      assert (first + rest)[..|first| + |rest| - 1] == first + rest[..|rest| - 1];
    }

    lemma BreaksOnward(a: seq<seq<Byte>>, b: seq<seq<Byte>>)
      ensures NoneBreaks(a + b) <==> NoneBreaks(a) && NoneBreaks(b)
    {
      forall k | 0 <= k < |b| ensures (a + b)[|a| + k] == b[k] {
      }
      if NoneBreaks(a + b) {
        forall k | 0 <= k < |a| ensures !Breaks(a[k]) {
          assert (a + b)[k] == a[k];
        }
      }
    }

    /** One read more of a drain, and what of it raises. */
    lemma ArrivingOnward(bytes: seq<Byte>, got: seq<Byte>, left: seq<Byte>, chunk: seq<Byte>, rest: seq<Byte>)
      requires chunk != [] && left == (if got == [] then bytes else Last(bytes + got, NUL))
      ensures Arriving(bytes, got + chunk) == Arriving(bytes, got) + Frames(left + chunk)
      ensures Last(bytes + (got + chunk), NUL) == Last(left + chunk, NUL)
      ensures !NoneBreaks(Frames(left + chunk)) ==> !NoneBreaks(Arriving(bytes, got + (chunk + rest)))
    {
      hide Frames, Last;
      assert bytes + (got + chunk) == bytes + got + chunk;
      if got == [] {
        assert bytes + got == bytes;
        assert [] + Frames(left + chunk) == Frames(left + chunk);
      } else {
        FramesOnward(bytes + got, chunk);
      }
      FramesOnward(bytes + (got + chunk), rest);
      assert bytes + (got + chunk) + rest == bytes + (got + (chunk + rest));
      BreaksOnward(Arriving(bytes, got), Frames(left + chunk));
      BreaksOnward(Frames(bytes + (got + chunk)), Frames(Last(bytes + (got + chunk), NUL) + rest));
    }

    /** The reads from the `i`-th on bring these, each of them something. */
    predicate Brings(i: nat, chunks: seq<seq<Byte>>) {
      && i + |chunks| <= |arrivals|
      && forall k :: 0 <= k < |chunks| ==> arrivals[i + k] == Bytes(chunks[k]) && chunks[k] != []
    }

    lemma BringsOnward(i: nat, chunks: seq<seq<Byte>>)
      requires Brings(i, chunks) && chunks != []
      ensures i < |arrivals| && arrivals[i] == Bytes(chunks[0]) && chunks[0] != []
      ensures Brings(i + 1, chunks[1..])
    {
      assert arrivals[i + 0] == Bytes(chunks[0]);
      forall k | 0 <= k < |chunks[1..]| ensures arrivals[i + 1 + k] == Bytes(chunks[1..][k]) && chunks[1..][k] != [] {
        assert arrivals[i + (k + 1)] == Bytes(chunks[k + 1]);
      }
    }

    lemma NoneBrought(i: nat, ticks: nat)
      requires i <= |arrivals|
      requires ticks == 0 || i == |arrivals| || !arrivals[i].Bytes? || arrivals[i].chunk == []
      ensures Incoming(i, ticks) == []
    {
    }

    /** What arrives is what the reads bring, up to the first that brings nothing or
        the last there is time for. */
    lemma {:induction false} IncomingIs(i: nat, ticks: nat, chunks: seq<seq<Byte>>)
      requires Brings(i, chunks) && |chunks| <= ticks
      requires var n := i + |chunks|;
        |chunks| == ticks || n == |arrivals| || !arrivals[n].Bytes? || arrivals[n].chunk == []
      ensures Incoming(i, ticks) == Concat(chunks)
      decreases |chunks|
    {
      if chunks != [] {
        BringsOnward(i, chunks);
        IncomingIs(i + 1, ticks - 1, chunks[1..]);
      } else {
        NoneBrought(i, ticks);
      }
    }

    lemma {:induction false} LastReplySplits(a: seq<seq<Byte>>, b: seq<seq<Byte>>, id: Id)
      ensures LastReply(a + b, id) == if LastReply(b, id).Some? then LastReply(b, id) else LastReply(a, id)
      decreases |b|
    {
      if b == [] {
        assert a + b == a;
      } else {
        var n := |b| - 1;
        LastReplySplits(a, b[..n], id);
        assert (a + b)[..|a| + n] == a + b[..n];
      }
    }

    /** Reads that bring no reply and nothing that raises leave a call waiting for the
        next. */
    lemma {:induction false} AwaitGoesOn(bytes: seq<Byte>, i: nat, id: Id, chunks: seq<seq<Byte>>)
      requires chunks != [] && Brings(i, chunks)
      requires var all := Frames(bytes + Concat(chunks)); NoneBreaks(all) && LastReply(all, id).None?
      ensures Await(bytes, i, id) == Await(Last(bytes + Concat(chunks), NUL), i + |chunks|, id)
      decreases |chunks|
    {
      hide Frames, Last, NoneBreaks, LastReply, Split;
      var chunk, rest := chunks[0], chunks[1..];
      assert arrivals[i + 0] == Bytes(chunk);
      assert bytes + Concat(chunks) == bytes + chunk + Concat(rest);
      FramesOnward(bytes + chunk, Concat(rest));
      var left := Last(bytes + chunk, NUL);
      BreaksOnward(Frames(bytes + chunk), Frames(left + Concat(rest)));
      LastReplySplits(Frames(bytes + chunk), Frames(left + Concat(rest)), id);
      if rest == [] {
        assert bytes + Concat(chunks) == bytes + chunk;
      } else {
        BringsOnward(i, chunks);
        AwaitGoesOn(left, i + 1, id, rest);
      }
    }

    /** What a call that waits comes to, whatever reads there were before without a
        reply: the last reply to it that the next completes, a failure where that read
        raises, and none where there is no such read. */
    lemma AwaitMeans(bytes: seq<Byte>, i: nat, id: Id, chunks: seq<seq<Byte>>)
      requires chunks != [] && Brings(i, chunks)
      requires var all := Frames(bytes + Concat(chunks)); NoneBreaks(all) && LastReply(all, id).None?
      ensures var a, n, before := Await(bytes, i, id), i + |chunks|, bytes + Concat(chunks);
        && (n == |arrivals| || arrivals[n].Silence? ==> a == Timeout)
        && (n < |arrivals| && (arrivals[n].Gone? || arrivals[n] == Bytes([])) ==> a == NoPeer)
        && (n < |arrivals| && arrivals[n].Bytes? && arrivals[n].chunk != [] ==>
              var frames := Frames(before + arrivals[n].chunk);
              && (!NoneBreaks(frames) ==> a == BadFrame)
              && (NoneBreaks(frames) && LastReply(frames, id).Some? ==>
                    var m := LastReply(frames, id).value;
                    m.Reply? && m.id == id && a == if m.error then PeerError(m) else Result(m)))
    {
      hide Frames, Last, NoneBreaks, LastReply, Split;
      AwaitGoesOn(bytes, i, id, chunks);
      var n, before := i + |chunks|, bytes + Concat(chunks);
      if n < |arrivals| && arrivals[n].Bytes? && arrivals[n].chunk != [] {
        var chunk := arrivals[n].chunk;
        FramesOnward(before, chunk);
        BreaksOnward(Frames(before), Frames(Last(before, NUL) + chunk));
        LastReplySplits(Frames(before), Frames(Last(before, NUL) + chunk), id);
        LastReplyIs(Frames(before + chunk), id);
      }
    }

    /** Where a drain that began with these bytes, at read `from`, has come to: it has
        read `got` and has `left` turns to read in. */
    ghost predicate Drains(start: Stage, from: nat, ticks: nat, got: seq<Byte>, now: Stage, i: nat, left: nat)
      requires from <= |arrivals| && i <= |arrivals|
    {
      && now.received == start.received + got && got + Incoming(i, left) == Incoming(from, ticks)
      && now.buf == (if got == [] then start.buf else Last(start.buf + got, NUL))
      && now.filed == start.filed + Arriving(start.buf, got) && NoneBreaks(Arriving(start.buf, got))
    }

    lemma DrainBegins(start: Stage, from: nat, ticks: nat)
      requires from <= |arrivals|
      ensures Drains(start, from, ticks, [], start, from, ticks)
    {
      hide Incoming;
      assert start.received + [] == start.received && start.filed + [] == start.filed;
      assert [] + Incoming(from, ticks) == Incoming(from, ticks);
    }

    lemma DrainGoesOn(start: Stage, from: nat, ticks: nat, got: seq<Byte>, now: Stage, i: nat, left: nat)
      requires from <= |arrivals| && i < |arrivals| && left > 0 && Drains(start, from, ticks, got, now, i, left)
      requires arrivals[i].Bytes? && arrivals[i].chunk != []
      ensures var chunk := arrivals[i].chunk;
        if NoneBreaks(Frames(now.buf + chunk)) then
          Drains(start, from, ticks, got + chunk,
                 Stage(now.received + chunk, Last(now.buf + chunk, NUL), now.filed + Frames(now.buf + chunk)),
                 i + 1, left - 1)
        else !NoneBreaks(Arriving(start.buf, Incoming(from, ticks)))
    {
      var chunk, rest := arrivals[i].chunk, Incoming(i + 1, left - 1);
      ArrivingOnward(start.buf, got, now.buf, chunk, rest);
      hide Frames, Last, NoneBreaks, Arriving;
      BreaksOnward(Arriving(start.buf, got), Frames(now.buf + chunk));
      Associates(start.filed, Arriving(start.buf, got), Frames(now.buf + chunk));
      Associates(start.received, got, chunk);
      Associates(got, chunk, rest);
    }

    lemma DrainEnds(start: Stage, from: nat, ticks: nat, got: seq<Byte>, now: Stage, i: nat, left: nat)
      requires from <= |arrivals| && i <= |arrivals| && Drains(start, from, ticks, got, now, i, left)
      requires left == 0 || i == |arrivals| || !arrivals[i].Bytes? || arrivals[i].chunk == []
      ensures NoneBreaks(Arriving(start.buf, Incoming(from, ticks)))
      ensures now.received == start.received + Incoming(from, ticks)
      ensures now.filed == start.filed + Arriving(start.buf, Incoming(from, ticks))
    {
      assert got + [] == got;
    }

    ghost predicate IsReply(frames: seq<seq<Byte>>, m: Message) {
      m.Reply? && exists i :: 0 <= i < |frames| && Filed(frames[i]) == Some(m)
    }

    /** Every event of the frames taken has been handed out or waits to be, once and
        in order, and every reply held is one that came, under its own id. */
    ghost predicate Kept()
      reads `events, `replies, `handedOut, `filed
    {
      && handedOut + events == EventsOf(filed)
      && forall k <- replies :: IsReply(filed, replies[k]) && replies[k].id == k
    }

    /** The frames taken, and what is buffered, are the stream. */
    ghost predicate Whole()
      reads `buf, `received, `filed
    {
      filed + Split(buf, NUL) == Split(received, NUL)
    }

    ghost predicate Valid()
      reads this
    {
      next <= |arrivals| && Whole() && Kept()
    }

    constructor (parse: seq<Byte> -> Loaded, arrivals: seq<Arrival>, writes: nat -> bool)
      ensures Valid() && received == [] && handedOut == [] && nextId == 0 && filed == []
    {
      this.parse, this.arrivals, this.writes := parse, arrivals, writes;
      next, nextId, buf, replies, events, received, handedOut, filed := 0, 0, [], map[], [], [], [], [];
    }

    /** With nothing complete left in the buffer, every frame that came was taken. */
    lemma AllTaken()
      requires Whole()
      ensures NUL !in buf ==> filed == Frames(received)
    {
      if NUL !in buf {
        SplitNone(buf, NUL);
        assert filed + [buf] == Split(received, NUL) && (filed + [buf])[..|filed|] == filed;
      }
    }

    /** The replies held once one frame has been filed. */
    lemma FiledOverOne(was: map<Id, Message>, frame: seq<Byte>)
      ensures var m := Filed(frame);
        FiledOver(was, if m.Some? && m.value.Reply? then was[m.value.id := m.value] else was, [frame])
    {
      assert [frame][..0] == [];
      var m := Filed(frame);
      assert forall id :: LastReply([frame], id) == if m.Some? && m.value.Reply? && m.value.id == id then m else None;
    }

    lemma EventsOne(before: seq<seq<Byte>>, frame: seq<Byte>)
      ensures var m := Filed(frame);
        EventsOf(before + [frame])
        == if m.Some? && m.value.Event? then EventsOf(before) + [m.value] else EventsOf(before)
    {
      assert (before + [frame])[..|before|] == before;
    }

    /** One frame filed, unless it raises. */
    method File(frame: seq<Byte>) returns (ok: bool)
      requires Kept()
      modifies `events, `replies, `filed
      ensures Kept() && filed == old(filed) + [frame] && (ok <==> !Breaks(frame))
      ensures old(events) <= events
      ensures forall k <- old(replies) :: k in replies
      ensures FiledOver(old(replies), replies, [frame])
    {
      hide Connection.EventsOf, Connection.FiledOver, Connection.Filed;
      FiledOverOne(replies, frame);
      EventsOne(filed, frame);
      var m := Filed(frame);
      ghost var before := filed;
      filed := filed + [frame];
      forall x | IsReply(before, x) ensures IsReply(filed, x) {
        var i :| 0 <= i < |before| && Filed(before[i]) == Some(x);
        assert filed[i] == before[i];
      }
      if m.Some? {
        match m.value {
          case Reply(id, _, _) =>
            assert filed[|before|] == frame && IsReply(filed, m.value);
            replies := replies[id := m.value];
          case Event(_) =>
            assert handedOut + (events + [m.value]) == (handedOut + events) + [m.value];
            events := events + [m.value];
        }
      }
      ok := !Breaks(frame);
    }

    /** One read, and whatever it completed, up to a frame that raises. */
    method Pump() returns (p: Pumped)
      requires Valid()
      modifies `next, `buf, `events, `replies, `received, `filed
      ensures Valid() && old(received) <= received && old(events) <= events && old(filed) <= filed
      ensures p.Read? || p.Broke? ==> next == old(next) + 1
      ensures p.Read? ==> NUL !in buf
      ensures p.Broke? ==> filed != [] && Breaks(filed[|filed| - 1])
      ensures p == if old(next) == |arrivals| then TimedOut
        else match arrivals[old(next)]
          case Silence => TimedOut
          case Gone => Closed
          case Bytes(chunk) => if chunk == [] then Closed
                               else if NoneBreaks(Frames(old(buf) + chunk)) then Read else Broke
      ensures p.Read? ==>
        && received == old(received) + arrivals[old(next)].chunk
        && buf == Last(old(buf) + arrivals[old(next)].chunk, NUL)
        && filed == old(filed) + Frames(old(buf) + arrivals[old(next)].chunk)
        && FiledOver(old(replies), replies, Frames(old(buf) + arrivals[old(next)].chunk))
      ensures p.TimedOut? || p.Closed? ==>
        received == old(received) && events == old(events) && replies == old(replies) && filed == old(filed)
        && buf == old(buf)
    {
      hide FiledOver, NoneBreaks, Frames;
      if next == |arrivals| {
        return TimedOut;
      }
      next := next + 1;
      match arrivals[next - 1] {
        case Silence => return TimedOut;
        case Gone => return Closed;
        case Bytes(chunk) =>
          if chunk == [] {
            return Closed;
          }
          var ok := Take(chunk);
          p := if ok then Read else Broke;
      }
    }

    /** The first frame off the buffer. It is gone from there even if it raises. */
    method FileFirst() returns (ok: bool)
      requires NUL in buf && Kept() && Whole()
      modifies `buf, `events, `replies, `filed
      ensures Kept() && Whole() && |filed| == |old(filed)| + 1 && old(filed) <= filed
      ensures ok <==> !Breaks(filed[|filed| - 1])
      ensures |buf| < |old(buf)| && old(events) <= events
      ensures FiledOver(old(replies), replies, [filed[|filed| - 1]])
    {
      hide Find, Split, Connection.Kept, Connection.FiledOver;
      var i := Find(buf, NUL);
      FindsIt(buf, NUL);
      var frame := buf[..i];
      assert buf == frame + [NUL] + buf[i + 1..];
      SplitPrefix(frame, NUL, buf[i + 1..]);
      assert filed + ([frame] + Split(buf[i + 1..], NUL)) == filed + [frame] + Split(buf[i + 1..], NUL);
      buf := buf[i + 1..];
      ok := File(frame);
    }

    method Take(chunk: seq<Byte>) returns (ok: bool)
      requires Valid()
      modifies `buf, `events, `replies, `received, `filed
      ensures Valid() && received == old(received) + chunk && old(events) <= events && old(filed) <= filed
      ensures ok ==> NUL !in buf
      ensures !ok ==> |filed| > |old(filed)| && Breaks(filed[|filed| - 1])
      // all that the chunk completes is taken, unless one of it raises
      ensures ok <==> NoneBreaks(Frames(old(buf) + chunk))
      ensures ok ==> filed == old(filed) + Frames(old(buf) + chunk) && buf == Last(old(buf) + chunk, NUL)
      ensures ok ==> FiledOver(old(replies), replies, Frames(old(buf) + chunk))
    {
      hide Find, Split, Connection.Kept, Connection.FiledOver, Frames;
      Onward(filed, buf, received, chunk);
      ghost var bytes, was := buf + chunk, filed;
      FiledOverNone(replies);
      assert filed[|was|..] == [];
      buf := buf + chunk;
      received := received + chunk;
      ok := true;
      while NUL in buf
        invariant Kept() && Whole()
        invariant received == old(received) + chunk && old(events) <= events && old(filed) <= filed
        invariant was + Split(bytes, NUL) == Split(received, NUL)
        invariant NoneBreaks(filed[|was|..]) && FiledOver(old(replies), replies, filed[|was|..])
        decreases |buf|
      {
        ghost var before, held := filed[|was|..], replies;
        ok := FileFirst();
        assert filed[|was|..] == before + [filed[|filed| - 1]];
        if !ok {
          TakenSince(was, bytes, filed, buf);
          assert Breaks(filed[|was|..][|before|]);
          return;
        }
        FiledOverMore(old(replies), held, replies, before, filed[|filed| - 1]);
      }
      TakenSince(was, bytes, filed, buf);
      assert filed[|was|..] == Frames(bytes);
    }

    /** One command: the result comes under the command's own id, and it is not
        there to be collected again. Events that arrive meanwhile are kept. */
    method Call() returns (a: Answer)
      requires Valid()
      modifies this
      ensures Valid() && nextId == old(nextId) + 1
      ensures a.Result? || a.PeerError? ==>
        a.reply.Reply? && a.reply.id == Number(nextId) && IsReply(filed, a.reply) && Number(nextId) !in replies
      ensures a.Result? ==> !a.reply.error
      ensures a.PeerError? ==> a.reply.error
      ensures a.BadFrame? ==> filed != [] && Breaks(filed[|filed| - 1])
      ensures handedOut == old(handedOut) && old(events) <= events && old(received) <= received && old(filed) <= filed
      // the reply that is there already, or what comes of waiting for it
      ensures a == if !writes(nextId) then NoPeer
        else if Number(nextId) in old(replies) then AnswerOf(old(replies)[Number(nextId)])
        else Await(old(buf), old(next), Number(nextId))
    {
      hide EventsOf, Frames, Whole, Breaks, NoneBreaks, LastReply;
      nextId := nextId + 1;
      if !writes(nextId) {
        return NoPeer;
      }
      while true
        invariant Valid() && nextId == old(nextId) + 1
        invariant handedOut == old(handedOut) && old(events) <= events && old(received) <= received
        invariant old(filed) <= filed
        invariant (if Number(nextId) in replies then AnswerOf(replies[Number(nextId)])
                   else Await(buf, next, Number(nextId)))
          == if Number(nextId) in old(replies) then AnswerOf(old(replies)[Number(nextId)])
             else Await(old(buf), old(next), Number(nextId))
        decreases |arrivals| - next
      {
        if Number(nextId) in replies {
          var reply := replies[Number(nextId)];
          replies := replies - {Number(nextId)};
          return if reply.error then PeerError(reply) else Result(reply);
        }
        var p := Pump();
        if p.TimedOut? {
          return Timeout;
        }
        if p.Closed? {
          return NoPeer;
        }
        if p.Broke? {
          return BadFrame;
        }
      }
    }

    /** Every event there was, and every one that came while draining; the next
        drain starts from none. Where a frame raises, nothing is handed out and all
        of them wait. `ticks` bounds the turns before the deadline. */
    method Drain(ticks: nat) returns (raised: bool, out: seq<Message>)
      requires Valid()
      modifies this
      ensures Valid() && old(received) <= received && old(filed) <= filed
      ensures !raised ==> events == [] && handedOut == old(handedOut) + out && old(events) <= out
      ensures !raised ==> handedOut == EventsOf(filed)
      ensures !raised && NUL !in buf ==> handedOut == EventsOf(Frames(received))
      ensures raised ==> out == [] && handedOut == old(handedOut) && old(events) <= events
      ensures raised ==> filed != [] && Breaks(filed[|filed| - 1])
      // it reads until the time is up or a read brings nothing, and raises exactly when something it read does
      ensures raised <==> !NoneBreaks(Arriving(old(buf), Incoming(old(next), ticks)))
      ensures !raised ==> received == old(received) + Incoming(old(next), ticks)
      ensures !raised ==> filed == old(filed) + Arriving(old(buf), Incoming(old(next), ticks))
    {
      hide Frames, NoneBreaks, FiledOver, EventsOf, Drains, Incoming, Arriving;
      ghost var start, from := Stage(received, buf, filed), next;
      ghost var got: seq<Byte> := [];
      DrainBegins(start, from, ticks);
      var left := ticks;
      raised, out := false, [];
      while left > 0
        invariant Valid() && handedOut == old(handedOut)
        invariant old(events) <= events && old(received) <= received && old(filed) <= filed
        invariant Drains(start, from, ticks, got, Stage(received, buf, filed), next, left)
      {
        ghost var was, at := Stage(received, buf, filed), next;
        var p := Pump();
        if p.Broke? {
          DrainGoesOn(start, from, ticks, got, was, at, left);
          return true, [];
        }
        if !p.Read? {
          DrainEnds(start, from, ticks, got, was, at, left);
          break;
        }
        DrainGoesOn(start, from, ticks, got, was, at, left);
        got := got + arrivals[at].chunk;
        left := left - 1;
      }
      if left == 0 {
        DrainEnds(start, from, ticks, got, Stage(received, buf, filed), next, left);
      }
      out := events;
      events := [];
      handedOut := handedOut + out;
      assert handedOut + events == handedOut;
      AllTaken();
    }
  }

  /** Bytes that arrive extend the stream and the buffer alike. */
  lemma Onward(filed: seq<seq<Byte>>, buf: seq<Byte>, received: seq<Byte>, chunk: seq<Byte>)
    requires filed + Split(buf, NUL) == Split(received, NUL)
    ensures filed + Split(buf + chunk, NUL) == Split(received + chunk, NUL)
  {
    hide Split, Find;
    var now, all := Split(buf, NUL), Split(received, NUL);
    SplitConcat(received, chunk, NUL);
    SplitConcat(buf, chunk, NUL);
    assert all[|all| - 1] == now[|now| - 1] && all[..|all| - 1] == filed + now[..|now| - 1];
    Associates(filed, now[..|now| - 1], Split(Last(buf, NUL) + chunk, NUL));
  }

  lemma {:induction false} FindsIt(s: seq<Byte>, c: Byte)
    requires c in s
    ensures Find(s, c) < |s|
  {
  }

  /** However a stream is cut into reads, what was handed out and what waits are
      the events of the frames taken; and those are all there are, unless the last
      read ended on a frame that raises, which leaves what is behind it to the next. */
  method PumpAll(c: Connection, chunks: seq<seq<Byte>>) returns (ok: bool)
    requires c.Valid() && c.received == [] && c.handedOut == [] && NUL !in c.buf
    modifies c
    ensures c.Valid() && c.received == Concat(chunks)
    ensures c.events == c.EventsOf(c.filed)
    ensures ok ==> c.filed == c.Frames(Concat(chunks)) && c.events == c.EventsOf(c.Frames(Concat(chunks)))
    ensures !ok ==> exists frame <- c.filed :: c.Breaks(frame)
  {
    ok := true;
    for i := 0 to |chunks|
      invariant c.Valid() && c.received == Concat(chunks[..i]) && c.handedOut == []
      invariant ok ==> NUL !in c.buf
      invariant !ok ==> exists frame <- c.filed :: c.Breaks(frame)
    {
      assert chunks[..i + 1] == chunks[..i] + [chunks[i]];
      ConcatAppend(chunks[..i], chunks[i]);
      ok := c.Take(chunks[i]);
      assert !ok ==> c.filed[|c.filed| - 1] in c.filed;
    }
    assert chunks[..|chunks|] == chunks && [] + c.events == c.events;
    c.AllTaken();
  }
}
