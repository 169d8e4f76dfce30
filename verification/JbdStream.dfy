/** Pulling JBD frames out of a fragmented notification stream. */
module JbdStream {
  import opened Prelude
  import opened JbdCodec

  /** Complete frames found so far and the bytes still waiting for more. */
  datatype Extracted = Extracted(frames: seq<seq<Byte>>, rest: seq<Byte>)

  /** Header, payload, two checksum bytes and the end byte. */
  function FrameSize(buf: seq<Byte>): nat
    requires |buf| >= 4
  {
    4 + Announced(buf) + 3
  }

  /** The framer: skip to a start byte, wait for the announced length, resynchronise on a wrong end byte. */
  function Extract(buf: seq<Byte>): Extracted {
    if buf == [] then Extracted([], [])
    else if buf[0] != START then Extract(buf[1..])
    else if |buf| < 4 || |buf| < FrameSize(buf) then Extracted([], buf)
    else if buf[FrameSize(buf) - 1] != END then Extract(buf[1..])
    else
      var tail := Extract(buf[FrameSize(buf)..]);
      Extracted([buf[..FrameSize(buf)]] + tail.frames, tail.rest)
  }

  /** `buf.find(START, i)`: the first start byte at or after `i`, or the length when there is none. */
  method FindStart(buf: seq<Byte>, i: nat) returns (at: nat)
    requires i <= |buf|
    ensures i <= at <= |buf| && (at < |buf| ==> buf[at] == START)
    ensures forall k | i <= k < at :: buf[k] != START
  {
    at := i;
    while at < |buf| && buf[at] != START
      invariant i <= at <= |buf|
      invariant forall k | i <= k < at :: buf[k] != START
    {
      at := at + 1;
    }
  }

  lemma {:induction false} SkipGap(gap: seq<Byte>, buf: seq<Byte>)
    requires START !in gap
    ensures Extract(gap + buf) == Extract(buf)
  {
    if gap == [] {
      assert gap + buf == buf;
    } else {
      SkipGap(gap[1..], buf);
      assert (gap + buf)[1..] == gap[1..] + buf;
    }
  }

  /** Bytes before the next start byte are skipped. */
  lemma SkipTo(buf: seq<Byte>, i: nat, start: nat)
    requires i <= start <= |buf| && forall k | i <= k < start :: buf[k] != START
    ensures Extract(buf[i..]) == Extract(buf[start..])
  {
    assert buf[i..] == buf[i..start] + buf[start..];
    SkipGap(buf[i..start], buf[start..]);
  }

  /** What the scan does at a start byte whose announced frame has arrived whole. */
  lemma AtFrame(buf: seq<Byte>, start: nat, total: nat)
    requires start + 4 <= |buf| && buf[start] == START && total == FrameSize(buf[start..]) && start + total <= |buf|
    ensures buf[start + total - 1] != END ==> Extract(buf[start..]) == Extract(buf[start + 1..])
    ensures buf[start + total - 1] == END ==>
              var tail := Extract(buf[start + total..]);
              Extract(buf[start..]) == Extracted([buf[start..start + total]] + tail.frames, tail.rest)
  {
    assert buf[start..][1..] == buf[start + 1..];
    assert buf[start..][..total] == buf[start..start + total] && buf[start..][total..] == buf[start + total..];
  }

  /** The scan has come to `i` with these frames found: what is ahead completes the answer. */
  ghost predicate Scanned(buf: seq<Byte>, i: nat, frames: seq<seq<Byte>>)
    requires i <= |buf|
  {
    Extract(buf) == Extracted(frames + Extract(buf[i..]).frames, Extract(buf[i..]).rest)
  }

  /** The scan moves past a whole frame. */
  lemma ScannedFrame(buf: seq<Byte>, start: nat, total: nat, frames: seq<seq<Byte>>)
    requires start + 4 <= |buf| && buf[start] == START && total == FrameSize(buf[start..]) && start + total <= |buf|
    requires buf[start + total - 1] == END && Scanned(buf, start, frames)
    ensures Scanned(buf, start + total, frames + [buf[start..start + total]])
  {
    AtFrame(buf, start, total);
    Assoc(frames, [buf[start..start + total]], Extract(buf[start + total..]).frames);
  }

  method ExtractFrames(buf: seq<Byte>) returns (r: Extracted)
    ensures r == Extract(buf)
  {
    var frames: seq<seq<Byte>> := [];
    var i, n := 0, |buf|;
    while i < n
      invariant i <= n
      invariant Scanned(buf, i, frames)
      decreases n - i
    {
      var start := FindStart(buf, i);
      SkipTo(buf, i, start);
      if start == n {
        return Extracted(frames, []);
      }
      if start + 4 > n {
        return Extracted(frames, buf[start..]);
      }
      var total := FrameSize(buf[start..]);
      if start + total > n {
        return Extracted(frames, buf[start..]);
      }
      if buf[start + total - 1] != END {
        AtFrame(buf, start, total);
        i := start + 1;
        continue;
      }
      ScannedFrame(buf, start, total, frames);
      frames := frames + [buf[start..start + total]];
      i := start + total;
    }
    r := Extracted(frames, []);
  }

  // ---------- fragmentation ----------

  /** A whole frame stands at the front: announced length present, end byte in place. */
  predicate FrameReady(buf: seq<Byte>) {
    |buf| >= 4 && buf[0] == START && |buf| >= FrameSize(buf) && buf[FrameSize(buf) - 1] == END
  }

  /** The front byte cannot begin a frame, whatever arrives later. */
  predicate FalseStart(buf: seq<Byte>) {
    buf != [] && (buf[0] != START || (|buf| >= 4 && |buf| >= FrameSize(buf) && buf[FrameSize(buf) - 1] != END))
  }

  lemma ReadyGrows(a: seq<Byte>, b: seq<Byte>)
    ensures FrameReady(a) ==> FrameReady(a + b) && FrameSize(a + b) == FrameSize(a)
    ensures FalseStart(a) ==> FalseStart(a + b)
  {
  }

  /** A byte that cannot begin a frame is skipped in the longer stream too. */
  lemma FalseStartGrows(a: seq<Byte>, b: seq<Byte>)
    requires FalseStart(a)
    ensures Extract(a) == Extract(a[1..]) && Extract(a + b) == Extract(a[1..] + b)
  {
    ReadyGrows(a, b);
    assert (a + b)[1..] == a[1..] + b;
  }

  /** A frame that is whole comes out of the longer stream too. */
  lemma FrameGrows(a: seq<Byte>, b: seq<Byte>)
    requires FrameReady(a)
    ensures var whole := Extract(a[FrameSize(a)..] + b);
            Extract(a + b) == Extracted([a[..FrameSize(a)]] + whole.frames, whole.rest)
    ensures var tail := Extract(a[FrameSize(a)..]);
            Extract(a) == Extracted([a[..FrameSize(a)]] + tail.frames, tail.rest)
  {
    var total := FrameSize(a);
    ReadyGrows(a, b);
    assert (a + b)[total..] == a[total..] + b && (a + b)[..total] == a[..total];
  }

  /** Extracting from `a` and then, behind its leftover, from `b` finds `frames` and leaves `rest`. */
  ghost predicate Resumes(a: seq<Byte>, b: seq<Byte>, frames: seq<seq<Byte>>, rest: seq<Byte>) {
    var first := Extract(a);
    var second := Extract(first.rest + b);
    frames == first.frames + second.frames && rest == second.rest
  }

  lemma FrameResumes(a: seq<Byte>, b: seq<Byte>, frames: seq<seq<Byte>>, rest: seq<Byte>)
    requires FrameReady(a) && Resumes(a[FrameSize(a)..], b, frames, rest)
    ensures Resumes(a, b, [a[..FrameSize(a)]] + frames, rest)
  {
    var first := Extract(a[FrameSize(a)..]);
    Assoc([a[..FrameSize(a)]], first.frames, Extract(first.rest + b).frames);
  }

  lemma {:induction false} ResumesWhole(a: seq<Byte>, b: seq<Byte>)
    ensures Resumes(a, b, Extract(a + b).frames, Extract(a + b).rest)
    decreases |a|
  {
    if FalseStart(a) {
      ResumesWhole(a[1..], b);
      FalseStartGrows(a, b);
    } else if FrameReady(a) {
      var later := a[FrameSize(a)..] + b;
      ResumesWhole(a[FrameSize(a)..], b);
      FrameGrows(a, b);
      FrameResumes(a, b, Extract(later).frames, Extract(later).rest);
    } else {
      assert Extract(a) == Extracted([], a);
    }
  }

  /**
   * Extracting from a stream that arrives in two parts, keeping the leftover between them, finds
   * what one pass over the whole finds: for every byte sequence, garbage and false starts included.
   */
  lemma ExtractConcat(a: seq<Byte>, b: seq<Byte>)
    ensures var first := Extract(a);
            var second := Extract(first.rest + b);
            Extract(a + b) == Extracted(first.frames + second.frames, second.rest)
  {
    ResumesWhole(a, b);
  }

  /** One notification arriving at the buffer `acc`. */
  function Notify(acc: Extracted, data: seq<Byte>): Extracted {
    var now := Extract(acc.rest + data);
    Extracted(acc.frames + now.frames, now.rest)
  }

  function NotifyAll(chunks: seq<seq<Byte>>): Extracted {
    if chunks == [] then Extracted([], [])
    else Notify(NotifyAll(chunks[..|chunks| - 1]), chunks[|chunks| - 1])
  }

  function Flatten(chunks: seq<seq<Byte>>): seq<Byte> {
    if chunks == [] then [] else Flatten(chunks[..|chunks| - 1]) + chunks[|chunks| - 1]
  }

  /** Fragmentation invariance: how a stream is cut into notifications changes neither frames nor leftover. */
  lemma {:induction false} FragmentationInvariance(chunks: seq<seq<Byte>>)
    ensures NotifyAll(chunks) == Extract(Flatten(chunks))
  {
    if chunks != [] {
      FragmentationInvariance(chunks[..|chunks| - 1]);
      ExtractConcat(Flatten(chunks[..|chunks| - 1]), chunks[|chunks| - 1]);
    }
  }

  // ---------- resynchronisation ----------

  /**
   * Noise that looks like frames loses nothing: bytes none of which can begin a frame, start bytes with
   * any length behind them included, are skipped one by one, and what follows is read as if they were not there.
   */
  lemma {:induction false} SkipFalseStarts(noise: seq<Byte>, buf: seq<Byte>)
    requires forall i | 0 <= i < |noise| :: FalseStart(noise[i..] + buf)
    ensures Extract(noise + buf) == Extract(buf)
  {
    if noise == [] {
      assert noise + buf == buf;
    } else {
      var rest := noise[1..];
      assert noise[0..] == noise;
      forall i | 0 <= i < |rest| ensures FalseStart(rest[i..] + buf) {
        assert noise[i + 1..] == rest[i..];
      }
      SkipFalseStarts(rest, buf);
      assert (noise + buf)[1..] == rest + buf;
    }
  }

  /** A stray start byte before a reply: its pretended frame reaches into the reply, which still comes out whole. */
  lemma StrayStartExample()
    ensures var reply: seq<Byte> := [0xDD, 0x03, 0x00, 0x02, 0x00, 0x01, 0xFF, 0xFD, 0x77];
            Extract([0xDD] + reply) == Extracted([reply], [])
  {
    var stray: seq<Byte>, reply: seq<Byte> := [0xDD], [0xDD, 0x03, 0x00, 0x02, 0x00, 0x01, 0xFF, 0xFD, 0x77];
    assert stray[0..] == stray;
    assert FalseStart(stray + reply);
    SkipFalseStarts(stray, reply);
    assert FrameSize(reply) == 9 && reply[..9] == reply && reply[9..] == [];
  }

  // ---------- delivery ----------

  /** A printable response and the line noise before it. */
  datatype Packet = Packet(gap: seq<Byte>, cmd: Byte, payload: seq<Byte>)

  ghost predicate Clean(p: Packet) {
    START !in p.gap && |p.payload| <= 255
  }

  function Printed(p: Packet): seq<Byte>
    requires |p.payload| <= 255
  {
    BuildResponse(p.cmd, p.payload, 0).value
  }

  ghost function Stream(packets: seq<Packet>): seq<Byte>
    requires forall i | 0 <= i < |packets| :: Clean(packets[i])
  {
    if packets == [] then [] else
      assert Clean(packets[0]);
      packets[0].gap + (Printed(packets[0]) + Stream(packets[1..]))
  }

  ghost function AllPrinted(packets: seq<Packet>): seq<seq<Byte>>
    requires forall i | 0 <= i < |packets| :: Clean(packets[i])
  {
    if packets == [] then [] else
      assert Clean(packets[0]);
      [Printed(packets[0])] + AllPrinted(packets[1..])
  }

  /** One packet in front of anything: its noise is skipped and its frame taken. */
  lemma PacketExtracts(p: Packet, later: seq<Byte>)
    requires Clean(p)
    ensures var tail := Extract(later);
            Extract(p.gap + (Printed(p) + later)) == Extracted([Printed(p)] + tail.frames, tail.rest)
  {
    var frame := Printed(p);
    var buf := frame + later;
    SkipGap(p.gap, buf);
    assert buf[..|frame|] == frame && buf[|frame|..] == later;
    assert FrameSize(buf) == |frame| && buf[|frame| - 1] == END;
  }

  lemma {:induction false} StreamExtracts(packets: seq<Packet>, trail: seq<Byte>)
    requires (forall i | 0 <= i < |packets| :: Clean(packets[i])) && START !in trail
    ensures Extract(Stream(packets) + trail) == Extracted(AllPrinted(packets), [])
  {
    if packets == [] {
      SkipGap(trail, []);
      assert Stream(packets) + trail == trail + [];
    } else {
      var p, rest := packets[0], Stream(packets[1..]);
      StreamExtracts(packets[1..], trail);
      PacketExtracts(p, rest + trail);
      assert Stream(packets) + trail == p.gap + (Printed(p) + (rest + trail));
    }
  }

  /**
   * End-to-end delivery: printed frames with noise between them, in any fragmentation, arrive as
   * exactly those frames in order with nothing left over. Payload bytes are unrestricted.
   */
  lemma {:induction false} Delivery(packets: seq<Packet>, trail: seq<Byte>, chunks: seq<seq<Byte>>)
    requires (forall i | 0 <= i < |packets| :: Clean(packets[i])) && START !in trail
    requires Flatten(chunks) == Stream(packets) + trail
    ensures NotifyAll(chunks) == Extracted(AllPrinted(packets), [])
  {
    FragmentationInvariance(chunks);
    StreamExtracts(packets, trail);
  }

  // ---------- the queue of one poll ----------

  predicate Answers(raw: seq<Byte>, cmd: Byte) {
    ParseFrame(raw).Ok? && ParseFrame(raw).value.cmd == cmd
  }

  /** The position of the first frame that answers `cmd`, or the length when none does. */
  function FirstAnswer(frames: seq<seq<Byte>>, cmd: Byte): (i: nat)
    ensures i <= |frames| && (i < |frames| ==> Answers(frames[i], cmd))
    ensures forall k | 0 <= k < i :: !Answers(frames[k], cmd)
  {
    if frames == [] || Answers(frames[0], cmd) then 0 else 1 + FirstAnswer(frames[1..], cmd)
  }

  /** The frames that answer `cmd`, in order. */
  function AnswersTo(frames: seq<seq<Byte>>, cmd: Byte): seq<seq<Byte>> {
    if frames == [] then []
    else (if Answers(frames[0], cmd) then [frames[0]] else []) + AnswersTo(frames[1..], cmd)
  }

  /** The buffer and queue shared by the notification callback and the poller. */
  class Poller {
    var buf: seq<Byte>
    var frames: seq<seq<Byte>>
    var got: bool

    constructor ()
      ensures buf == [] && frames == [] && !got
    {
      buf, frames, got := [], [], false;
    }

    method OnNotify(data: seq<Byte>)
      modifies this
      ensures Extracted(frames, buf) == Notify(Extracted(old(frames), old(buf)), data)
      ensures got == (old(got) || frames != old(frames))
    {
      buf := buf + data;
      var r := ExtractFrames(buf);
      buf := r.rest;
      if r.frames != [] {
        frames := frames + r.frames;
        assert |frames| > |old(frames)|;
        got := true;
      }
    }

    /** Removes and parses the first frame that answers `cmd`; every other frame keeps its place. */
    method TakeCmd(cmd: Byte) returns (parsed: Option<Reply>)
      modifies `frames
      ensures var i := FirstAnswer(old(frames), cmd);
              if i == |old(frames)| then parsed == None && frames == old(frames)
              else parsed == Some(ParseFrame(old(frames)[i]).value)
                   && frames == old(frames)[..i] + old(frames)[i + 1..]
    {
      var i := 0;
      while i < |frames|
        invariant i <= |frames| && frames == old(frames)
        invariant forall k | 0 <= k < i :: !Answers(frames[k], cmd)
      {
        var p := ParseFrame(frames[i]);
        if p.Ok? && p.value.cmd == cmd {
          frames := frames[..i] + frames[i + 1..];
          return Some(p.value);
        }
        i := i + 1;
      }
      parsed := None;
    }
  }

  // ---------- notifications and takes in any order ----------

  datatype Event = Arrives(data: seq<Byte>) | Take(cmd: Byte)

  /** The poller's buffer and queue, and the raw frames handed out, oldest first. */
  datatype Session = Session(queue: Extracted, taken: seq<seq<Byte>>)

  function Handle(s: Session, e: Event): Session {
    match e
    case Arrives(data) => s.(queue := Notify(s.queue, data))
    case Take(cmd) =>
      var i := FirstAnswer(s.queue.frames, cmd);
      if i == |s.queue.frames| then s
      else Session(s.queue.(frames := s.queue.frames[..i] + s.queue.frames[i + 1..]),
                   s.taken + [s.queue.frames[i]])
  }

  function Run(es: seq<Event>): Session {
    if es == [] then Session(Extracted([], []), []) else Handle(Run(es[..|es| - 1]), es[|es| - 1])
  }

  function Received(es: seq<Event>): seq<Byte> {
    if es == [] then []
    else Received(es[..|es| - 1]) + if es[|es| - 1].Arrives? then es[|es| - 1].data else []
  }

  lemma {:induction false} AnswersAppend(a: seq<seq<Byte>>, b: seq<seq<Byte>>, cmd: Byte)
    ensures AnswersTo(a + b, cmd) == AnswersTo(a, cmd) + AnswersTo(b, cmd)
  {
    if a == [] {
      assert a + b == b;
    } else {
      AnswersAppend(a[1..], b, cmd);
      assert (a + b)[1..] == a[1..] + b && (a + b)[0] == a[0];
      Assoc(if Answers(a[0], cmd) then [a[0]] else [], AnswersTo(a[1..], cmd), AnswersTo(b, cmd));
    }
  }

  lemma {:induction false} NoAnswers(frames: seq<seq<Byte>>, cmd: Byte)
    requires forall k | 0 <= k < |frames| :: !Answers(frames[k], cmd)
    ensures AnswersTo(frames, cmd) == []
  {
    if frames != [] {
      NoAnswers(frames[1..], cmd);
    }
  }

  lemma AnswersAround(a: seq<seq<Byte>>, x: seq<Byte>, b: seq<seq<Byte>>, cmd: Byte)
    ensures AnswersTo(a + ([x] + b), cmd) == AnswersTo(a, cmd) + (AnswersTo([x], cmd) + AnswersTo(b, cmd))
  {
    AnswersAppend(a, [x] + b, cmd);
    AnswersAppend([x], b, cmd);
  }

  /** Taking one frame moves it from the head of its command's line, and disturbs no other line. */
  lemma TakeKeepsOrder(frames: seq<seq<Byte>>, i: nat, wanted: Byte, cmd: Byte)
    requires i == FirstAnswer(frames, wanted) < |frames|
    ensures AnswersTo([frames[i]], cmd) + AnswersTo(frames[..i] + frames[i + 1..], cmd) == AnswersTo(frames, cmd)
  {
    var a, x, b := frames[..i], frames[i], frames[i + 1..];
    assert frames == a + ([x] + b);
    AnswersAround(a, x, b, cmd);
    AnswersAppend(a, b, cmd);
    if cmd == wanted {
      NoAnswers(a, cmd);
    } else {
      NoAnswers([x], cmd);
    }
    EmptyCommutes(AnswersTo(a, cmd), AnswersTo([x], cmd), AnswersTo(b, cmd));
  }

  /**
   * First in, first out for every command: whatever the interleaving of notifications and takes,
   * the frames handed out for `cmd` followed by those still queued are the frames for `cmd` in the
   * bytes received, in order: none lost, none twice, none overtaken.
   */
  lemma {:induction false} EachCommandIsFifo(es: seq<Event>, cmd: Byte)
    ensures AnswersTo(Run(es).taken, cmd) + AnswersTo(Run(es).queue.frames, cmd)
            == AnswersTo(Extract(Received(es)).frames, cmd)
    ensures Run(es).queue.rest == Extract(Received(es)).rest
  {
    if es != [] {
      var before, e := es[..|es| - 1], es[|es| - 1];
      EachCommandIsFifo(before, cmd);
      var s := Run(before);
      match e {
        case Arrives(data) =>
          ExtractConcat(Received(before), data);
          AnswersAppend(s.queue.frames, Extract(s.queue.rest + data).frames, cmd);
          AnswersAppend(Extract(Received(before)).frames, Extract(s.queue.rest + data).frames, cmd);
        case Take(wanted) =>
          assert Received(es) == Received(before);
          var i := FirstAnswer(s.queue.frames, wanted);
          if i < |s.queue.frames| {
            TakeKeepsOrder(s.queue.frames, i, wanted, cmd);
            AnswersAppend(s.taken, [s.queue.frames[i]], cmd);
          }
      }
    }
  }

  /** The frames sent for one command, in order. */
  ghost function SentFor(packets: seq<Packet>, cmd: Byte): seq<seq<Byte>>
    requires forall i | 0 <= i < |packets| :: Clean(packets[i])
  {
    if packets == [] then []
    else
      assert Clean(packets[0]);
      (if packets[0].cmd == cmd then [Printed(packets[0])] else []) + SentFor(packets[1..], cmd)
  }

  lemma {:induction false} PrintedAnswers(packets: seq<Packet>, cmd: Byte)
    requires forall i | 0 <= i < |packets| :: Clean(packets[i])
    ensures AnswersTo(AllPrinted(packets), cmd) == SentFor(packets, cmd)
  {
    if packets != [] {
      var p := packets[0];
      assert Clean(p);
      PrintedAnswers(packets[1..], cmd);
      ParseAfterBuild(p.cmd, p.payload, 0);
      assert AllPrinted(packets)[1..] == AllPrinted(packets[1..]);
    }
  }

  /**
   * From the BMS to the caller: with noise free of start bytes between the frames, however the
   * stream is cut up and whenever replies are taken, the replies for a command come out exactly
   * as they were sent, in order, and what is not yet taken is still queued.
   */
  lemma {:induction false} RepliesArriveInOrder(packets: seq<Packet>, trail: seq<Byte>, es: seq<Event>, cmd: Byte)
    requires (forall i | 0 <= i < |packets| :: Clean(packets[i])) && START !in trail
    requires Received(es) == Stream(packets) + trail
    ensures AnswersTo(Run(es).taken, cmd) + AnswersTo(Run(es).queue.frames, cmd) == SentFor(packets, cmd)
  {
    EachCommandIsFifo(es, cmd);
    StreamExtracts(packets, trail);
    PrintedAnswers(packets, cmd);
  }
}
