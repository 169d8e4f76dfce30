/** The append-only capture journal of the BLE inspector and the cursor paging over it. */
module Journal {
  import opened Prelude

  const MAX_BYTES := 100_000_000
  const RESERVE := 131_072

  datatype Kind = Completion | ListeningEnded | UnsubscribeResult | Ordinary

  predicate Terminal(k: Kind) {
    !k.Ordinary?
  }

  /** One line: its sequence number, kind and length in bytes, and whether the emit that wrote it returned. */
  datatype Event = Event(seqNo: nat, kind: Kind, bytes: nat, returned: bool)

  /**
   * How a write and flush ended. On success the line and everything still buffered reach the file.
   * On failure the first `reached` lines of the buffer, the new one counted last, are readable all
   * the same; the rest stays in the buffer, or is lost and may leave a torn piece in the file.
   */
  datatype Outcome = Written | Kept(reached: nat) | Lost(reached: nat, tearing: bool)

  /**
   * The capture: the last sequence number and the bytes accounted for, the readable lines of the
   * file, the lines still in its buffer, and whether an unreadable piece ends the readable part.
   * Nothing after such a piece is readable.
   */
  datatype State = State(seqNo: nat, size: nat, lines: seq<Event>, pending: seq<Event>, torn: bool)

  const FRESH := State(0, 0, [], [], false)

  function Limit(k: Kind): nat {
    if Terminal(k) then MAX_BYTES else MAX_BYTES - RESERVE
  }

  predicate Fits(s: State, k: Kind, bytes: nat) {
    s.size + bytes <= Limit(k)
  }

  predicate Accepted(s: State, k: Kind, bytes: nat, io: Outcome) {
    Fits(s, k, bytes) && io == Written
  }

  function Least(a: nat, b: nat): nat {
    if a < b then a else b
  }

  /** The first `reached` of these lines become readable. */
  function Reach(s: State, queue: seq<Event>, reached: nat): State {
    if s.torn then s else s.(lines := s.lines + queue[..Least(reached, |queue|)])
  }

  function Emitted(s: State, k: Kind, bytes: nat, io: Outcome): State {
    if !Fits(s, k, bytes) then s
    else
      var queue := s.pending + [Event(s.seqNo + 1, k, bytes, io == Written)];
      match io
      case Written => Reach(s, queue, |queue|).(seqNo := s.seqNo + 1, size := s.size + bytes, pending := [])
      case Kept(reached) => Reach(s, queue, reached).(pending := queue[Least(reached, |queue|)..])
      case Lost(reached, tearing) => Reach(s, queue, reached).(pending := [], torn := s.torn || tearing)
  }

  /** Closing the file pushes out what is still buffered, as far as the disk lets it. */
  function Closed(s: State, reached: nat): State {
    Reach(s, s.pending, reached).(pending := [])
  }

  // ---------- what every emit keeps ----------

  /** The lines whose emits returned. */
  function Returned(lines: seq<Event>): nat {
    if lines == [] then 0 else Returned(lines[..|lines| - 1]) + if lines[|lines| - 1].returned then 1 else 0
  }

  function ReturnedBytes(lines: seq<Event>): nat {
    if lines == [] then 0
    else ReturnedBytes(lines[..|lines| - 1]) + if lines[|lines| - 1].returned then lines[|lines| - 1].bytes else 0
  }

  ghost predicate Numbered(lines: seq<Event>) {
    forall i | 0 <= i < |lines| :: lines[i].seqNo == i + 1
  }

  /**
   * Each line is numbered by the emits that returned before it, so a failed emit's number is used
   * again; and among the returned ones every ordinary event ends before the reserve, every one before the cap.
   */
  ghost predicate Booked(lines: seq<Event>) {
    lines == [] ||
    var before, e := lines[..|lines| - 1], lines[|lines| - 1];
    && Booked(before)
    && e.seqNo == Returned(before) + 1
    && (e.returned ==> ReturnedBytes(before) + e.bytes <= Limit(e.kind))
  }

  /** Lines of emits that failed while `seqNo` events were accounted for. */
  ghost predicate Failed(lines: seq<Event>, seqNo: nat) {
    forall i | 0 <= i < |lines| :: lines[i].seqNo == seqNo + 1 && !lines[i].returned
  }

  ghost predicate Accounted(s: State) {
    && Returned(s.lines) <= s.seqNo && ReturnedBytes(s.lines) <= s.size <= MAX_BYTES
    && (!s.torn ==> Returned(s.lines) == s.seqNo && ReturnedBytes(s.lines) == s.size)
  }

  ghost predicate Sound(s: State) {
    Booked(s.lines) && Failed(s.pending, s.seqNo) && Accounted(s)
  }

  lemma Append(lines: seq<Event>, e: Event)
    ensures Returned(lines + [e]) == Returned(lines) + if e.returned then 1 else 0
    ensures ReturnedBytes(lines + [e]) == ReturnedBytes(lines) + if e.returned then e.bytes else 0
    ensures Booked(lines + [e]) <==>
            && Booked(lines) && e.seqNo == Returned(lines) + 1
            && (e.returned ==> ReturnedBytes(lines) + e.bytes <= Limit(e.kind))
  {
    var all := lines + [e];
    assert all[..|all| - 1] == lines && all[|all| - 1] == e;
  }

  /** Lines of failed emits add no number and no accounted byte. */
  lemma {:induction false} AppendFailed(lines: seq<Event>, more: seq<Event>)
    requires Booked(lines) && Failed(more, Returned(lines))
    ensures Booked(lines + more)
    ensures Returned(lines + more) == Returned(lines) && ReturnedBytes(lines + more) == ReturnedBytes(lines)
  {
    if more == [] {
      assert lines + more == lines;
    } else {
      var n := |more| - 1;
      AppendFailed(lines, more[..n]);
      Append(lines + more[..n], more[n]);
      assert lines + more == (lines + more[..n]) + [more[n]];
    }
  }

  /** Failed lines becoming readable change no account. */
  lemma ReachKeeps(s: State, queue: seq<Event>, reached: nat)
    requires Sound(s) && Failed(queue, s.seqNo)
    ensures var t := Reach(s, queue, reached);
            && Booked(t.lines) && s.lines <= t.lines
            && Returned(t.lines) == Returned(s.lines) && ReturnedBytes(t.lines) == ReturnedBytes(s.lines)
  {
    if !s.torn {
      AppendFailed(s.lines, queue[..Least(reached, |queue|)]);
    }
  }

  /** A returned line goes in after everything buffered before it. */
  lemma WriteBooks(lines: seq<Event>, pending: seq<Event>, e: Event) returns (after: seq<Event>)
    requires Booked(lines) && Failed(pending, Returned(lines)) && e.seqNo == Returned(lines) + 1 && e.returned
    requires ReturnedBytes(lines) + e.bytes <= Limit(e.kind)
    ensures after == lines + (pending + [e]) && Booked(after)
    ensures Returned(after) == Returned(lines) + 1 && ReturnedBytes(after) == ReturnedBytes(lines) + e.bytes
  {
    AppendFailed(lines, pending);
    Append(lines + pending, e);
    Assoc(lines, pending, [e]);
    after := lines + pending + [e];
  }

  lemma WriteKeeps(s: State, k: Kind, bytes: nat)
    requires Sound(s) && Fits(s, k, bytes)
    ensures Sound(Emitted(s, k, bytes, Written)) && s.lines <= Emitted(s, k, bytes, Written).lines
  {
    var e, t := Event(s.seqNo + 1, k, bytes, true), Emitted(s, k, bytes, Written);
    if !s.torn {
      var queue := s.pending + [e];
      var after := WriteBooks(s.lines, s.pending, e);
      assert queue[..|queue|] == queue;
      assert t == State(s.seqNo + 1, s.size + bytes, after, [], false);
    }
  }

  /** Sound accounts stay sound when only failed lines move. */
  lemma SoundAfter(s: State, t: State)
    requires Sound(s) && t.seqNo == s.seqNo && t.size == s.size && (s.torn ==> t.torn)
    requires Booked(t.lines) && Failed(t.pending, t.seqNo)
    requires Returned(t.lines) == Returned(s.lines) && ReturnedBytes(t.lines) == ReturnedBytes(s.lines)
    ensures Sound(t)
  {
  }

  /** Some of the queue becomes readable; what stays buffered is part of the queue or nothing. */
  lemma QueueKeeps(s: State, queue: seq<Event>, reached: nat, t: State)
    requires Sound(s) && Failed(queue, s.seqNo) && Failed(t.pending, s.seqNo)
    requires t == Reach(s, queue, reached).(pending := t.pending, torn := t.torn) && (s.torn ==> t.torn)
    ensures Sound(t) && s.lines <= t.lines
  {
    ReachKeeps(s, queue, reached);
    SoundAfter(s, t);
  }

  lemma FailKeeps(s: State, k: Kind, bytes: nat, io: Outcome)
    requires Sound(s) && Fits(s, k, bytes) && !io.Written?
    ensures Sound(Emitted(s, k, bytes, io)) && s.lines <= Emitted(s, k, bytes, io).lines
  {
    var queue, t := s.pending + [Event(s.seqNo + 1, k, bytes, false)], Emitted(s, k, bytes, io);
    FailedRest(queue, s.seqNo, Least(io.reached, |queue|));
    QueueKeeps(s, queue, io.reached, t);
  }

  lemma FailedRest(queue: seq<Event>, seqNo: nat, m: nat)
    requires Failed(queue, seqNo) && m <= |queue|
    ensures Failed(queue[m..], seqNo)
  {
  }

  /** Whatever the disk does with a line, numbers and accounting stay sound and the readable lines only grow. */
  lemma EmitKeepsSound(s: State, k: Kind, bytes: nat, io: Outcome)
    requires Sound(s)
    ensures Sound(Emitted(s, k, bytes, io)) && s.lines <= Emitted(s, k, bytes, io).lines
    ensures Accepted(s, k, bytes, io) ==> Emitted(s, k, bytes, io).size <= Limit(k)
  {
    if Fits(s, k, bytes) {
      if io == Written {
        WriteKeeps(s, k, bytes);
      } else {
        FailKeeps(s, k, bytes, io);
      }
    }
  }

  lemma CloseKeepsSound(s: State, reached: nat)
    requires Sound(s)
    ensures Sound(Closed(s, reached)) && s.lines <= Closed(s, reached).lines
  {
    ReachKeeps(s, s.pending, reached);
  }

  /** No line of a failed emit has another line after it. */
  ghost predicate Clean(lines: seq<Event>) {
    forall i | 0 <= i < |lines| - 1 :: lines[i].returned
  }

  lemma {:induction false} ReturnedBound(lines: seq<Event>)
    ensures Returned(lines) <= |lines|
    ensures Returned(lines) == |lines| <==> forall i | 0 <= i < |lines| :: lines[i].returned
  {
    if lines != [] {
      ReturnedBound(lines[..|lines| - 1]);
      assert forall i | 0 <= i < |lines| - 1 :: lines[..|lines| - 1][i] == lines[i];
    }
  }

  lemma {:induction false} BookedAt(lines: seq<Event>, i: nat)
    requires Booked(lines) && i < |lines|
    ensures lines[i].seqNo == Returned(lines[..i]) + 1
  {
    var n := |lines| - 1;
    if i < n {
      BookedAt(lines[..n], i);
      assert lines[..n][..i] == lines[..i];
    }
  }

  /** The numbers run from one without gap or repeat exactly when no failed emit's line is followed by another. */
  lemma NumberedExactly(lines: seq<Event>)
    requires Booked(lines)
    ensures Numbered(lines) <==> Clean(lines)
  {
    forall i | 0 <= i < |lines| ensures lines[i].seqNo == i + 1 <==> forall j | 0 <= j < i :: lines[j].returned {
      BookedAt(lines, i);
      ReturnedBound(lines[..i]);
      assert forall j | 0 <= j < i :: lines[..i][j] == lines[j];
    }
    if Numbered(lines) && |lines| > 0 {
      assert lines[|lines| - 1].seqNo == |lines|;
    }
  }

  /** The capture object, with the file it appends to. */
  class Capture {
    var seqNo: nat
    var size: nat
    var lines: seq<Event>
    var pending: seq<Event>
    var torn: bool
    var failed: bool
    var closed: bool

    ghost function View(): State
      reads this
    {
      State(seqNo, size, lines, pending, torn)
    }

    /** An empty file; the metadata event is the first one emitted. */
    constructor ()
      ensures View() == FRESH && !failed && !closed && Sound(View())
    {
      seqNo, size, lines, pending, torn, failed, closed := 0, 0, [], [], false, false, false;
    }

    /** The file object: what of `queue` gets through, with `reached` lines readable. */
    method Push(queue: seq<Event>, reached: nat)
      modifies `lines
      ensures State(old(seqNo), old(size), lines, old(pending), old(torn)) == Reach(old(View()), queue, reached)
    {
      if !torn {
        lines := lines + queue[..Least(reached, |queue|)];
      }
    }

    method Emit(kind: Kind, bytes: nat, io: Outcome) returns (ok: bool)
      requires !closed
      modifies this
      ensures View() == Emitted(old(View()), kind, bytes, io) && !closed
      ensures ok <==> Accepted(old(View()), kind, bytes, io)
      ensures failed == (old(failed) || !ok)
    {
      var terminal := kind.Completion? || kind.ListeningEnded? || kind.UnsubscribeResult?;
      if size + bytes > MAX_BYTES - (if terminal then 0 else RESERVE) {
        failed := true;
        return false;
      }
      var queue := pending + [Event(seqNo + 1, kind, bytes, io == Written)];
      match io {
        case Written =>
          Push(queue, |queue|);
          pending, seqNo, size := [], seqNo + 1, size + bytes;
        case Kept(reached) =>
          Push(queue, reached);
          pending, failed := queue[Least(reached, |queue|)..], true;
        case Lost(reached, tearing) =>
          Push(queue, reached);
          pending, torn, failed := [], torn || tearing, true;
      }
      ok := io == Written;
    }

    /** The summary is attempted and the file closed, whether or not it could be written. */
    method Finish(bytes: nat, io: Outcome, reached: nat)
      requires !closed
      modifies this
      ensures View() == Closed(Emitted(old(View()), Completion, bytes, io), reached) && closed
    {
      var _ := Emit(Completion, bytes, io);
      Push(pending, reached);
      pending, closed := [], true;
    }
  }

  // ---------- paging ----------

  function After(lines: seq<Event>, after: nat): seq<Event> {
    if lines == [] then []
    else (if lines[0].seqNo > after then [lines[0]] else []) + After(lines[1..], after)
  }

  /** A limit of none or zero is no limit. */
  function Page(lines: seq<Event>, after: nat, limit: nat): seq<Event> {
    var rows := After(lines, after);
    if limit > 0 && |rows| > limit then rows[..limit] else rows
  }

  lemma AfterStep(lines: seq<Event>, i: nat, after: nat)
    requires i < |lines|
    ensures lines[i].seqNo > after ==> After(lines[i..], after) == [lines[i]] + After(lines[i + 1..], after)
    ensures lines[i].seqNo <= after ==> After(lines[i..], after) == After(lines[i + 1..], after)
  {
    assert lines[i..][1..] == lines[i + 1..];
  }

  method Events(lines: seq<Event>, after: nat, limit: nat) returns (result: seq<Event>)
    ensures result == Page(lines, after, limit)
  {
    result := [];
    for i := 0 to |lines|
      invariant After(lines, after) == result + After(lines[i..], after)
      invariant limit > 0 ==> |result| < limit
    {
      AfterStep(lines, i, after);
      if lines[i].seqNo > after {
        ghost var tail := After(lines[i + 1..], after);
        Assoc(result, [lines[i]], tail);
        result := result + [lines[i]];
        if limit > 0 && |result| >= limit {
          assert (result + tail)[..limit] == result;
          return;
        }
      }
    }
  }

  lemma {:induction false} AfterIsSuffix(lines: seq<Event>, from: nat, after: nat)
    requires from <= after && forall i | 0 <= i < |lines| :: lines[i].seqNo == from + i + 1
    ensures After(lines, after) == if after - from <= |lines| then lines[after - from..] else []
  {
    if lines != [] {
      AfterIsSuffix(lines[1..], from + 1, if after == from then from + 1 else after);
      if after == from {
        AfterAll(lines[1..], after);
      }
    }
  }

  lemma {:induction false} AfterAll(lines: seq<Event>, after: nat)
    requires forall i | 0 <= i < |lines| :: lines[i].seqNo > after
    ensures After(lines, after) == lines
  {
    if lines != [] {
      AfterAll(lines[1..], after);
    }
  }

  /** Between two looks at the file: the writer emits or closes it, or the poller polls. */
  datatype Step = Emits(kind: Kind, bytes: nat, io: Outcome) | Closes(reached: nat) | Polls(limit: nat)

  /** The capture, the poller's cursor, and everything its pages held, in order. */
  datatype Session = Session(capture: State, cursor: nat, seen: seq<Event>)

  function Advance(s: Session, step: Step): Session {
    match step
    case Emits(k, bytes, io) => s.(capture := Emitted(s.capture, k, bytes, io))
    case Closes(reached) => s.(capture := Closed(s.capture, reached))
    case Polls(limit) =>
      var rows := Page(s.capture.lines, s.cursor, limit);
      s.(cursor := if rows == [] then s.cursor else rows[|rows| - 1].seqNo, seen := s.seen + rows)
  }

  function Run(steps: seq<Step>): Session {
    if steps == [] then Session(FRESH, 0, []) else Advance(Run(steps[..|steps| - 1]), steps[|steps| - 1])
  }

  /** Where a poll with this cursor and limit leaves the cursor. */
  function Reached(cursor: nat, limit: nat, total: nat): nat {
    if limit == 0 then total else Least(cursor + limit, total)
  }

  lemma PageIsSlice(lines: seq<Event>, cursor: nat, limit: nat)
    requires Numbered(lines) && cursor <= |lines|
    ensures cursor <= Reached(cursor, limit, |lines|) <= |lines|
    ensures Page(lines, cursor, limit) == lines[cursor..Reached(cursor, limit, |lines|)]
  {
    AfterIsSuffix(lines, 0, cursor);
    var rows, next := lines[cursor..], Reached(cursor, limit, |lines|);
    assert After(lines, cursor) == rows;
    if limit > 0 && |rows| > limit {
      assert next == cursor + limit && rows[..limit] == lines[cursor..next];
    } else {
      assert next == |lines| && rows == lines[cursor..next];
    }
  }

  /** Every page from every cursor holds exactly the next lines. */
  ghost predicate PagesRight(lines: seq<Event>) {
    forall cursor: nat, limit: nat | cursor <= |lines| ::
      Page(lines, cursor, limit) == lines[cursor..Reached(cursor, limit, |lines|)]
  }

  lemma {:induction false} AfterSplit(a: seq<Event>, b: seq<Event>, after: nat)
    ensures After(a + b, after) == After(a, after) + After(b, after)
  {
    if a == [] {
      assert a + b == b;
    } else {
      AfterSplit(a[1..], b, after);
      assert (a + b)[1..] == a[1..] + b && (a + b)[0] == a[0];
      Assoc(if a[0].seqNo > after then [a[0]] else [], After(a[1..], after), After(b, after));
    }
  }

  /** If the rest of the file is what follows a cursor, the lines before it are at or below the cursor. */
  lemma NothingSkipped(lines: seq<Event>, c: nat)
    requires c <= |lines| && After(lines, c) == lines[c..] && forall i | c <= i < |lines| :: lines[i].seqNo > c
    ensures forall i | 0 <= i < c :: lines[i].seqNo <= c
  {
    var a, b := lines[..c], lines[c..];
    assert lines == a + b;
    AfterSplit(a, b, c);
    assert forall i | 0 <= i < |b| :: b[i] == lines[c + i];
    AfterAll(b, c);
    assert |After(a, c)| + |b| == |b|;
    NoneAfter(a, c);
    assert forall i | 0 <= i < c :: a[i] == lines[i];
  }

  lemma {:induction false} NoneAfter(lines: seq<Event>, after: nat)
    requires |After(lines, after)| == 0
    ensures forall i | 0 <= i < |lines| :: lines[i].seqNo <= after
  {
    if lines != [] {
      NoneAfter(lines[1..], after);
    }
  }

  lemma {:induction false} AfterAreAbove(lines: seq<Event>, after: nat)
    ensures forall e <- After(lines, after) :: e.seqNo > after
  {
    if lines != [] {
      AfterAreAbove(lines[1..], after);
    }
  }

  /** Paging by the last number is right from every cursor exactly when the numbers have no gap and no repeat. */
  lemma PagingExactly(lines: seq<Event>)
    ensures PagesRight(lines) <==> Numbered(lines)
  {
    if Numbered(lines) {
      forall cursor: nat, limit: nat | cursor <= |lines|
        ensures Page(lines, cursor, limit) == lines[cursor..Reached(cursor, limit, |lines|)]
      {
        PageIsSlice(lines, cursor, limit);
      }
    }
    if PagesRight(lines) {
      forall i | 0 <= i < |lines| ensures lines[i].seqNo == i + 1 {
        RestIsAbove(lines, i);
        RestIsAbove(lines, i + 1);
        NothingSkipped(lines, i + 1);
      }
    }
  }

  lemma RestIsAbove(lines: seq<Event>, c: nat)
    requires PagesRight(lines) && c <= |lines|
    ensures After(lines, c) == lines[c..] && forall i | c <= i < |lines| :: lines[i].seqNo > c
  {
    assert Page(lines, c, 0) == lines[c..|lines|];
    assert lines[c..|lines|] == lines[c..];
    AfterAreAbove(lines, c);
    assert forall i | c <= i < |lines| :: lines[i] == lines[c..][i - c];
  }

  /** A poll returns the next events after the cursor and moves it past exactly those. */
  lemma PollAdvances(s: Session, limit: nat)
    requires Numbered(s.capture.lines) && s.cursor <= |s.capture.lines|
    ensures var lines := s.capture.lines;
            var next := Reached(s.cursor, limit, |lines|);
            Advance(s, Polls(limit)) == Session(s.capture, next, s.seen + lines[s.cursor..next])
  {
    PageIsSlice(s.capture.lines, s.cursor, limit);
  }

  lemma {:induction false} RunIsSound(steps: seq<Step>)
    ensures Sound(Run(steps).capture)
  {
    if steps != [] {
      RunIsSound(steps[..|steps| - 1]);
      StepGrows(Run(steps[..|steps| - 1]), steps[|steps| - 1]);
    }
  }

  lemma StepGrows(s: Session, step: Step)
    requires Sound(s.capture)
    ensures Sound(Advance(s, step).capture) && s.capture.lines <= Advance(s, step).capture.lines
  {
    match step {
      case Emits(k, bytes, io) => EmitKeepsSound(s.capture, k, bytes, io);
      case Closes(reached) => CloseKeepsSound(s.capture, reached);
      case Polls(_) =>
    }
  }

  /** For any run, paging over its file is right exactly when no failed emit's line is followed by another. */
  lemma RunPagesExactly(steps: seq<Step>)
    ensures PagesRight(Run(steps).capture.lines) <==> Clean(Run(steps).capture.lines)
  {
    RunIsSound(steps);
    PagingExactly(Run(steps).capture.lines);
    NumberedExactly(Run(steps).capture.lines);
  }

  /** The pages so far are the first `cursor` events of the journal. */
  ghost predicate Paged(s: Session) {
    s.cursor <= |s.capture.lines| && s.seen == s.capture.lines[..s.cursor]
  }

  lemma PollKeepsPaged(s: Session, limit: nat)
    requires Numbered(s.capture.lines) && Paged(s)
    ensures Paged(Advance(s, Polls(limit)))
  {
    var lines := s.capture.lines;
    PollAdvances(s, limit);
    var next := Reached(s.cursor, limit, |lines|);
    assert lines[..s.cursor] + lines[s.cursor..next] == lines[..next];
  }

  lemma StepKeepsPaged(s: Session, step: Step)
    requires Sound(s.capture) && Paged(s) && Clean(s.capture.lines)
    ensures Paged(Advance(s, step))
  {
    if step.Polls? {
      NumberedExactly(s.capture.lines);
      PollKeepsPaged(s, step.limit);
    } else {
      StepGrows(s, step);
      assert Advance(s, step).capture.lines[..s.cursor] == s.capture.lines[..s.cursor];
    }
  }

  /**
   * Paging neither skips nor repeats: under any interleaving of emits, failed ones included, and
   * polls that pass on the last cursor, the pages so far are the first `cursor` events of the journal,
   * as long as no failed emit's line came to stand before another.
   */
  lemma {:induction false} PagesArePrefix(steps: seq<Step>)
    requires Clean(Run(steps).capture.lines)
    ensures Paged(Run(steps))
  {
    if steps != [] {
      var before := steps[..|steps| - 1];
      RunIsSound(before);
      StepGrows(Run(before), steps[|steps| - 1]);
      CleanPrefix(Run(before).capture.lines, Run(steps).capture.lines);
      PagesArePrefix(before);
      StepKeepsPaged(Run(before), steps[|steps| - 1]);
    }
  }

  lemma CleanPrefix(lines: seq<Event>, all: seq<Event>)
    requires lines <= all && Clean(all)
    ensures Clean(lines)
  {
  }

  // ---------- failed flushes ----------

  /**
   * Every failure that is not a refusal at the limit keeps its whole line in the buffer: a failed
   * flush. The file may be closed once, after the last emit, and polled on.
   */
  ghost predicate FlushesOnly(steps: seq<Step>) {
    && (forall i | 0 <= i < |steps| && steps[i].Emits? :: steps[i].io in {Written, Kept(0)})
    && (forall i, j | 0 <= i < j < |steps| && steps[i].Closes? :: steps[j].Polls?)
  }

  predicate Keeps(s: State, step: Step) {
    step.Emits? && Fits(s, step.kind, step.bytes) && step.io.Kept?
  }

  predicate Writes(s: State, step: Step) {
    step.Emits? && Accepted(s, step.kind, step.bytes, step.io)
  }

  /** How many emits failed at their flush since the last one that returned. */
  function OpenFailures(steps: seq<Step>): nat {
    if steps == [] then 0
    else
      var before, step := steps[..|steps| - 1], steps[|steps| - 1];
      if Keeps(Run(before).capture, step) then OpenFailures(before) + 1
      else if Writes(Run(before).capture, step) then 0
      else OpenFailures(before)
  }

  /** Some emit that failed at its flush was followed by one that returned. */
  function KeptThenWritten(steps: seq<Step>): bool {
    if steps == [] then false
    else
      var before, step := steps[..|steps| - 1], steps[|steps| - 1];
      KeptThenWritten(before) || (OpenFailures(before) > 0 && Writes(Run(before).capture, step))
  }

  /** How many failed lines closing the file pushed out after all. */
  function PushedOut(steps: seq<Step>): nat {
    if steps == [] then 0
    else
      var before, step := steps[..|steps| - 1], steps[|steps| - 1];
      if step.Closes? then Least(step.reached, OpenFailures(before)) else PushedOut(before)
  }

  ghost predicate HasClosed(steps: seq<Step>) {
    exists i :: 0 <= i < |steps| && steps[i].Closes?
  }

  ghost predicate AllReturned(lines: seq<Event>) {
    forall i | 0 <= i < |lines| :: lines[i].returned
  }

  ghost predicate NoneReturned(lines: seq<Event>) {
    forall i | 0 <= i < |lines| :: !lines[i].returned
  }

  /** What the file looks like before it is closed. */
  ghost predicate OpenFile(s: State, open: nat, keptThenWritten: bool) {
    && !s.torn && NoneReturned(s.pending) && |s.pending| == open
    && (if keptThenWritten then !Clean(s.lines) else AllReturned(s.lines))
  }

  lemma WriteStep(s: State, step: Step, open: nat, keptThenWritten: bool)
    requires OpenFile(s, open, keptThenWritten) && Writes(s, step)
    ensures OpenFile(Emitted(s, step.kind, step.bytes, step.io), 0, keptThenWritten || open > 0)
  {
    var t := Emitted(s, step.kind, step.bytes, step.io);
    var queue := s.pending + [Event(s.seqNo + 1, step.kind, step.bytes, true)];
    assert queue[..|queue|] == queue && t.lines == s.lines + queue;
    if keptThenWritten {
      var i :| 0 <= i < |s.lines| - 1 && !s.lines[i].returned;
      assert t.lines[i] == s.lines[i];
    } else if open > 0 {
      assert t.lines[|s.lines|] == s.pending[0];
    }
  }

  lemma KeepStep(s: State, step: Step, open: nat, keptThenWritten: bool)
    requires OpenFile(s, open, keptThenWritten) && Keeps(s, step) && step.io == Kept(0)
    ensures OpenFile(Emitted(s, step.kind, step.bytes, step.io), open + 1, keptThenWritten)
  {
    var queue := s.pending + [Event(s.seqNo + 1, step.kind, step.bytes, false)];
    assert queue[0..] == queue && s.lines + queue[..0] == s.lines;
    assert Emitted(s, step.kind, step.bytes, step.io) == s.(pending := queue);
  }

  /** Closing is harmless as long as it pushes out at most one failed line, and no line followed one before. */
  lemma CloseStep(s: State, reached: nat, open: nat, keptThenWritten: bool)
    requires OpenFile(s, open, keptThenWritten)
    ensures Clean(Closed(s, reached).lines) <==> !keptThenWritten && Least(reached, open) <= 1
  {
    var m, lines := Least(reached, open), Closed(s, reached).lines;
    assert lines == s.lines + s.pending[..m];
    if keptThenWritten {
      var i :| 0 <= i < |s.lines| - 1 && !s.lines[i].returned;
      assert lines[i] == s.lines[i];
    } else if m > 1 {
      assert lines[|s.lines|] == s.pending[0];
    }
  }

  /** What the run so far says about the file, before and after it is closed. */
  ghost predicate FlushInvariant(steps: seq<Step>) {
    var s := Run(steps).capture;
    if HasClosed(steps) then Clean(s.lines) <==> !KeptThenWritten(steps) && PushedOut(steps) <= 1
    else OpenFile(s, OpenFailures(steps), KeptThenWritten(steps)) && PushedOut(steps) == 0
  }

  lemma FlushStep(before: seq<Step>, step: Step)
    requires FlushesOnly(before + [step]) && FlushInvariant(before)
    ensures FlushInvariant(before + [step])
  {
    var steps, s := before + [step], Run(before).capture;
    assert steps[..|before|] == before && steps[|before|] == step;
    assert HasClosed(steps) <==> HasClosed(before) || step.Closes? by {
      assert forall i | 0 <= i < |before| :: steps[i] == before[i];
    }
    if HasClosed(before) {
      var i :| 0 <= i < |before| && before[i].Closes?;
      assert steps[i].Closes? && step.Polls?;
    } else if Writes(s, step) {
      WriteStep(s, step, OpenFailures(before), KeptThenWritten(before));
    } else if Keeps(s, step) {
      KeepStep(s, step, OpenFailures(before), KeptThenWritten(before));
    } else if step.Closes? {
      CloseStep(s, step.reached, OpenFailures(before), KeptThenWritten(before));
    } else {
      assert Run(steps).capture == s;
    }
  }

  lemma {:induction false} FlushInvariantHolds(steps: seq<Step>)
    requires FlushesOnly(steps)
    ensures FlushInvariant(steps)
  {
    if steps != [] {
      var before := steps[..|steps| - 1];
      FlushInvariantHolds(before);
      assert steps == before + [steps[|steps| - 1]];
      FlushStep(before, steps[|steps| - 1]);
    }
  }

  /**
   * When failures are failed flushes, over captures still open and over finished ones: paging is right
   * exactly when no emit that failed at its flush was followed by one that returned, and closing the
   * file pushed out at most one of the lines still buffered. Those lines all carry one number.
   */
  lemma FailedFlushExactly(steps: seq<Step>)
    requires FlushesOnly(steps)
    ensures PagesRight(Run(steps).capture.lines) <==> !KeptThenWritten(steps) && PushedOut(steps) <= 1
  {
    FlushInvariantHolds(steps);
    RunPagesExactly(steps);
  }

  // ---------- the reserve ----------

  /** The bytes of every event that ends something: cleanup records and the final summary. */
  function EndingBytes(steps: seq<Step>): nat {
    if steps == [] then 0
    else
      var step := steps[|steps| - 1];
      EndingBytes(steps[..|steps| - 1]) +
      if step.Emits? && step.kind in {Completion, ListeningEnded, UnsubscribeResult} then step.bytes else 0
  }

  /** Ordinary events leave the last 128 KiB of the 100 MB alone; only endings use it. */
  lemma {:induction false} ReserveIsKept(steps: seq<Step>)
    ensures Run(steps).capture.size <= 99_868_928 + EndingBytes(steps)
    ensures Run(steps).capture.size <= 100_000_000
  {
    if steps != [] {
      ReserveIsKept(steps[..|steps| - 1]);
    }
  }

  /**
   * The reserve is enough: whatever the run, however full the file, an ending is never refused as
   * long as all endings together take at most 128 KiB. An ordinary event is refused exactly when it
   * would reach into the reserve, an ending when it would exceed the 100 MB.
   */
  lemma EndingsFit(steps: seq<Step>, kind: Kind, bytes: nat)
    ensures kind == Ordinary ==> (Fits(Run(steps).capture, kind, bytes) <==>
                                  Run(steps).capture.size + bytes <= 99_868_928)
    ensures kind != Ordinary ==> (Fits(Run(steps).capture, kind, bytes) <==>
                                  Run(steps).capture.size + bytes <= 100_000_000)
    ensures kind != Ordinary && EndingBytes(steps) + bytes <= 131_072 ==>
              Accepted(Run(steps).capture, kind, bytes, Written)
  {
    ReserveIsKept(steps);
  }

  // ---------- two captures that lose an event ----------

  lemma RunStep(steps: seq<Step>, step: Step, after: Session)
    requires Advance(Run(steps), step) == after
    ensures Run(steps + [step]) == after
  {
    assert (steps + [step])[..|steps|] == steps;
  }

  const WRITE := Emits(Ordinary, 200, Written)
  const FAIL := Emits(Ordinary, 200, Kept(0))

  /** The metadata event is written, the next one fails at its flush. */
  lemma OneFailure(m: Event, a: Event)
    requires m == Event(1, Ordinary, 200, true) && a == Event(2, Ordinary, 200, false)
    ensures Run([WRITE]) == Session(State(1, 200, [m], [], false), 0, [])
    ensures Run([WRITE] + [FAIL]) == Session(State(1, 200, [m], [a], false), 0, [])
  {
    assert [] + [m] == [m] && [m][..1] == [m] && [] + [WRITE] == [WRITE];
    RunStep([], WRITE, Session(State(1, 200, [m], [], false), 0, []));
    assert [] + [a] == [a] && [a][..0] == [] && [a][0..] == [a] && [m] + [] == [m];
    RunStep([WRITE], FAIL, Session(State(1, 200, [m], [a], false), 0, []));
  }

  lemma PagesOfThree(m: Event, a: Event, b: Event)
    requires m.seqNo == 1 && a.seqNo == b.seqNo == 2
    ensures Page([m, a, b], 0, 2) == [m, a] && Page([m, a, b], 2, 200) == Page([m, a, b], 2, 0) == []
  {
    assert [m, a, b][1..] == [a, b] && [a, b][1..] == [b] && [b][1..] == [];
    assert After([b], 0) == [b] && After([b], 2) == [];
    assert After([a, b], 0) == [a] + [b] && After([a, b], 2) == [];
    assert After([m, a, b], 0) == [m] + ([a] + [b]) && After([m, a, b], 2) == [];
    assert ([m] + ([a] + [b]))[..2] == [m, a];
  }

  /** Metadata, a failed flush, a success, and a page that ends between their lines: the last is never returned. */
  lemma SkippedEventExample() returns (steps: seq<Step>, s: Session)
    ensures steps == [WRITE] + [FAIL] + [WRITE] + [Polls(2)] + [Polls(200)]
    ensures s == Run(steps) && |s.capture.lines| == 3 && |s.seen| == 2 && Page(s.capture.lines, s.cursor, 0) == []
  {
    var m, a := Event(1, Ordinary, 200, true), Event(2, Ordinary, 200, false);
    var b := Event(2, Ordinary, 200, true);
    var file := State(2, 400, [m, a, b], [], false);
    OneFailure(m, a);
    assert ([a] + [b])[..2] == [a] + [b] && [m] + ([a] + [b]) == [m, a, b];
    RunStep([WRITE] + [FAIL], WRITE, Session(file, 0, []));
    PagesOfThree(m, a, b);
    s := Session(file, 2, [m, a]);
    assert [] + [m, a] == [m, a] && [m, a] + [] == [m, a];
    RunStep([WRITE] + [FAIL] + [WRITE], Polls(2), s);
    RunStep([WRITE] + [FAIL] + [WRITE] + [Polls(2)], Polls(200), s);
    steps := [WRITE] + [FAIL] + [WRITE] + [Polls(2)] + [Polls(200)];
  }

  /** No emit returns after the failure, yet the close delivers its line and the failed summary under one number. */
  lemma FinishedCaptureExample() returns (steps: seq<Step>)
    ensures steps == [WRITE] + [FAIL] + [Emits(Completion, 200, Kept(0))] + [Closes(2)]
    ensures FlushesOnly(steps) && !KeptThenWritten(steps) && !PagesRight(Run(steps).capture.lines)
  {
    var m, a := Event(1, Ordinary, 200, true), Event(2, Ordinary, 200, false);
    var summary := Emits(Completion, 200, Kept(0));
    OneFailure(m, a);
    var one, two := [WRITE] + [FAIL], [WRITE] + [FAIL] + [summary];
    steps := two + [Closes(2)];
    FailuresGrow([], WRITE);
    FailuresGrow([WRITE], FAIL);
    FailuresGrow(one, summary);
    FailuresGrow(two, Closes(2));
    assert [] + [WRITE] == [WRITE];
    FailedFlushExactly(steps);
  }

  /** One more step and what the run then says about its failures. */
  lemma FailuresGrow(before: seq<Step>, step: Step)
    ensures var s, all := Run(before).capture, before + [step];
            && OpenFailures(all) == (if Keeps(s, step) then OpenFailures(before) + 1
                                     else if Writes(s, step) then 0 else OpenFailures(before))
            && KeptThenWritten(all) == (KeptThenWritten(before) || (OpenFailures(before) > 0 && Writes(s, step)))
            && PushedOut(all) == (if step.Closes? then Least(step.reached, OpenFailures(before)) else PushedOut(before))
  {
    assert (before + [step])[..|before|] == before;
  }
}
