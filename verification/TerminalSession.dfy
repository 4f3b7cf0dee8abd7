/**
 The terminal stream multiplexer of src/controller-sessions.mjs: PTY output goes
 into a bounded replay ring and out to attached sockets; attaching is accepted,
 staged and activated in three steps with anything in between.
 */
module TerminalSession {
  import opened Sequences
  import opened Wrappers

  const CHUNK := 16384
  const RING := 256

  type Socket = nat
  type Bytes = seq<bv8>

  datatype Frame = Frame(sequence: nat, eof: bool, data: Bytes)

  datatype Requested = WantWrite | WantRead | WantWriteIfAvailable
  datatype Mode = ReadWrite | ReadOnly
  datatype Delivery = Accepted | Staged | Active | Failed

  /** What an attachment's callbacks were called with. */
  datatype Event = Ack | Out(frame: Frame)

  datatype Attachment = Attachment(
    socket: Socket,
    mode: Mode,
    requested: nat,
    delivery: Delivery,
    cursor: nat,
    next: nat,
    replay: seq<Frame>,
    received: seq<Event>)

  datatype Outcome<+T> = Ok(value: T) | Refused(reason: Refusal)
  datatype Refusal =
    | NotFound | WriteConflict | WriteRequired | InputConflict | ResizeRequired | ResizeConflict | ResizeInvalid | ResizeFailed

  // ------------------------------------------------------------- output

  function Chunks(bytes: Bytes): (chunks: seq<Bytes>)
    decreases |bytes|
  {
    if |bytes| == 0 then []
    else if |bytes| <= CHUNK then [bytes]
    else [bytes[..CHUNK]] + Chunks(bytes[CHUNK..])
  }

  /** Cutting output into frames loses nothing; every frame but the last is full, and none is empty or too long. */
  lemma {:induction false} ChunksKeepBytes(bytes: Bytes)
    ensures Concat(Chunks(bytes)) == bytes
    ensures forall chunk :: chunk in Chunks(bytes) ==> 0 < |chunk| <= 16384
    ensures forall k :: 0 <= k < |Chunks(bytes)| - 1 ==> |Chunks(bytes)[k]| == 16384
    decreases |bytes|
  {
    if 0 < |bytes| <= CHUNK {
      assert [bytes][1..] == [];
    } else if |bytes| > CHUNK {
      ChunksKeepBytes(bytes[CHUNK..]);
      assert ([bytes[..CHUNK]] + Chunks(bytes[CHUNK..]))[1..] == Chunks(bytes[CHUNK..]);
    }
  }

  /** `push`, then `shift` beyond the bound. */
  function Buffered(ring: seq<Frame>, frame: Frame): seq<Frame> {
    var pushed := ring + [frame];
    if |pushed| > RING then pushed[1..] else pushed
  }

  /** Frame number `i` of the whole output has sequence `i`. */
  ghost predicate Numbered(log: seq<Frame>) {
    forall i :: 0 <= i < |log| ==> log[i].sequence == i
  }

  /** The ring is the end of the log, and never empty once there was output. */
  ghost predicate RingOf(ring: seq<Frame>, log: seq<Frame>) {
    && |ring| <= |log| && ring == log[|log| - |ring|..]
    && (log != [] ==> ring != [])
  }

  /**
   How many of the frames so far can still be replayed: the last 256, and one more for
   good if the terminal exited after that many.
   */
  function Retained(frames: nat, exit: Option<nat>): nat {
    if exit.Some? && exit.value >= 256 then 257
    else if frames < 256 then frames else 256
  }

  function Head(ring: seq<Frame>, sequence: nat): nat {
    if ring == [] then sequence else ring[0].sequence
  }

  lemma HeadOfRing(ring: seq<Frame>, log: seq<Frame>)
    requires Numbered(log) && RingOf(ring, log)
    ensures Head(ring, |log|) == |log| - |ring|
  {
  }

  /** `filter(frame => frame.sequence >= from)`. */
  function From(ring: seq<Frame>, from: nat): seq<Frame> {
    if ring == [] then []
    else if ring[0].sequence >= from then [ring[0]] + From(ring[1..], from)
    else From(ring[1..], from)
  }

  function Later(a: nat, b: nat): nat {
    if a < b then b else a
  }

  /** Filtering a numbered run of frames keeps an end of it. */
  lemma {:induction false} FromIsSuffix(ring: seq<Frame>, log: seq<Frame>, from: nat)
    requires Numbered(log) && |ring| <= |log| && ring == log[|log| - |ring|..]
    ensures From(ring, from) == if from <= |log| then log[Later(from, |log| - |ring|)..] else []
    decreases |ring|
  {
    if ring != [] {
      var first := |log| - |ring|;
      assert ring[0] == log[first];
      assert ring[1..] == log[first + 1..];
      FromIsSuffix(ring[1..], log, from);
      assert log[first..] == [log[first]] + log[first + 1..];
    }
  }

  function Outs(frames: seq<Frame>): (events: seq<Event>)
    ensures |events| == |frames| && forall i :: 0 <= i < |events| ==> events[i] == Out(frames[i])
  {
    seq(|frames|, (i: nat) requires i < |frames| => Out(frames[i]))
  }

  // -------------------------------------------------------- what is promised

  /** One acknowledgement, then frames of the output with strictly increasing numbers. */
  ghost predicate Stream(received: seq<Event>, log: seq<Frame>) {
    && received != [] && received[0] == Ack
    && (forall k :: 1 <= k < |received| ==>
          received[k].Out? && received[k].frame.sequence < |log| && log[received[k].frame.sequence] == received[k].frame)
    && (forall j, k :: 1 <= j < k < |received| ==> received[j].frame.sequence < received[k].frame.sequence)
  }

  /** No frame is missing from the acknowledged cursor on. */
  ghost predicate Whole(a: Attachment, log: seq<Frame>) {
    && a.received != [] && a.cursor + |a.received| - 1 <= |log|
    && a.received == [Ack] + Outs(log[a.cursor..a.cursor + |a.received| - 1])
  }

  /** The staged replay is the output from the cursor up to `next`. */
  ghost predicate Replayed(a: Attachment, log: seq<Frame>) {
    && a.cursor <= a.next
    && (if a.next <= |log| then a.replay == log[a.cursor..a.next] else a.replay == [] && a.next == a.cursor)
  }

  ghost predicate Sound(a: Attachment, log: seq<Frame>) {
    match a.delivery
    case Accepted => a.received == []
    case Staged => a.received == [] && Replayed(a, log)
    case Active => Stream(a.received, log)
    case Failed => a.received == [] || Stream(a.received, log)
  }

  lemma SoundLater(a: Attachment, log: seq<Frame>, frame: Frame)
    requires Sound(a, log)
    ensures Sound(a, log + [frame])
  {
    var longer := log + [frame];
    assert forall i :: 0 <= i < |log| ==> longer[i] == log[i];
    if a.delivery.Staged? && a.next <= |log| {
      assert longer[a.cursor..a.next] == log[a.cursor..a.next];
    }
  }

  lemma WholeLater(a: Attachment, log: seq<Frame>, frame: Frame)
    requires Whole(a, log)
    ensures Whole(a, log + [frame])
  {
    var end := a.cursor + |a.received| - 1;
    assert (log + [frame])[a.cursor..end] == log[a.cursor..end];
  }

  /** A live frame goes on where everything before it stopped. */
  lemma StreamGrows(received: seq<Event>, log: seq<Frame>, frame: Frame)
    requires Stream(received, log) && frame.sequence == |log|
    ensures Stream(received + [Out(frame)], log + [frame])
  {
    var longer := log + [frame];
    assert forall i :: 0 <= i < |log| ==> longer[i] == log[i];
  }

  lemma WholeGrows(a: Attachment, log: seq<Frame>, frame: Frame)
    requires Whole(a, log) && a.cursor + |a.received| - 1 == |log|
    ensures Whole(a.(received := a.received + [Out(frame)]), log + [frame])
  {
    var longer := log + [frame];
    assert longer[a.cursor..] == log[a.cursor..] + [frame];
    assert log[a.cursor..|log|] == log[a.cursor..];
    assert Outs(longer[a.cursor..]) == Outs(log[a.cursor..]) + [Out(frame)];
    assert longer[a.cursor..|longer|] == longer[a.cursor..];
  }

  /** What activation hands over: the staged replay, then what the ring has from `next` on. */
  function Handover(a: Attachment, ring: seq<Frame>): seq<Frame> {
    a.replay + From(ring, a.next)
  }

  /** Two stretches of the output, the second not beginning before the first ends. */
  lemma HandoverIs(a: Attachment, ring: seq<Frame>, log: seq<Frame>)
    requires Numbered(log) && RingOf(ring, log) && Replayed(a, log)
    ensures Handover(a, ring) == if a.next <= |log| then Stretches(a, log, Later(a.next, |log| - |ring|)) else []
  {
    FromIsSuffix(ring, log, a.next);
  }

  function Stretches(a: Attachment, log: seq<Frame>, from: nat): seq<Frame>
    requires a.cursor <= a.next <= |log| && from <= |log|
  {
    log[a.cursor..a.next] + log[from..]
  }

  ghost predicate Increasing(frames: seq<Frame>, log: seq<Frame>) {
    && (forall k :: 0 <= k < |frames| ==> frames[k].sequence < |log| && log[frames[k].sequence] == frames[k])
    && (forall j, k :: 0 <= j < k < |frames| ==> frames[j].sequence < frames[k].sequence)
  }

  lemma StretchesIncrease(a: Attachment, log: seq<Frame>, from: nat)
    requires Numbered(log) && a.cursor <= a.next <= from <= |log|
    ensures Increasing(Stretches(a, log, from), log)
  {
    var frames := Stretches(a, log, from);
    forall k | 0 <= k < |frames|
      ensures Position(a, from, k) < |log| && frames[k] == log[Position(a, from, k)]
      ensures frames[k].sequence == Position(a, from, k)
    {
      var first, second := log[a.cursor..a.next], log[from..];
      assert frames[k] == if k < |first| then first[k] else second[k - |first|];
    }
    forall j, k | 0 <= j < k < |frames| ensures frames[j].sequence < frames[k].sequence {
      assert Position(a, from, j) < Position(a, from, k);
    }
  }

  /** Where in the output frame `k` of the two stretches is. */
  function Position(a: Attachment, from: nat, k: nat): nat
    requires a.cursor <= a.next
  {
    if k < a.next - a.cursor then a.cursor + k else from + (k - (a.next - a.cursor))
  }

  lemma OutsStream(frames: seq<Frame>, log: seq<Frame>)
    requires Increasing(frames, log)
    ensures Stream([Ack] + Outs(frames), log)
  {
    var received := [Ack] + Outs(frames);
    assert forall k :: 1 <= k < |received| ==> received[k] == Out(frames[k - 1]);
  }

  /** Replay and ring never overlap, whatever happened since the snapshot. */
  lemma HandoverIsStream(a: Attachment, ring: seq<Frame>, log: seq<Frame>)
    requires Numbered(log) && RingOf(ring, log) && Replayed(a, log)
    ensures Stream([Ack] + Outs(Handover(a, ring)), log)
  {
    HandoverIs(a, ring, log);
    if a.next <= |log| { StretchesIncrease(a, log, Later(a.next, |log| - |ring|)); }
    OutsStream(Handover(a, ring), log);
  }

  /**
   The handover is gap-free from the acknowledged cursor exactly when the ring has
   not passed the snapshot's next frame; a cursor in the future is the other exception.
   */
  lemma HandoverIsWhole(a: Attachment, ring: seq<Frame>, log: seq<Frame>)
    requires Numbered(log) && RingOf(ring, log) && Replayed(a, log) && a.cursor <= |log|
    ensures Handover(a, ring) == log[a.cursor..] <==> Head(ring, |log|) <= a.next
  {
    HandoverIs(a, ring, log);
    HeadOfRing(ring, log);
    hide Handover, RingOf, Numbered, Head;
    if a.next <= |log| { StretchesMeet(a, log, Later(a.next, |log| - |ring|)); }
  }

  /** Two stretches make up the output from the cursor on exactly when nothing lies between them. */
  lemma StretchesMeet(a: Attachment, log: seq<Frame>, from: nat)
    requires a.cursor <= a.next <= from <= |log|
    ensures Stretches(a, log, from) == log[a.cursor..] <==> from == a.next
  {
    assert |Stretches(a, log, from)| == a.next - a.cursor + |log| - from;
  }

  // ---------------------------------------------------------- the session

  function Fed(a: Attachment, frame: Frame): Attachment {
    a.(received := a.received + [Out(frame)])
  }

  function Fanout(all: seq<Attachment>, feeding: set<nat>, frame: Frame): (after: seq<Attachment>)
    ensures |after| == |all|
    ensures forall i :: 0 <= i < |all| ==> after[i] == if i in feeding then Fed(all[i], frame) else all[i]
  {
    seq(|all|, (i: nat) requires i < |all| => if i in feeding then Fed(all[i], frame) else all[i])
  }

  ghost predicate Heard(all: seq<Attachment>, log: seq<Frame>) {
    forall i :: 0 <= i < |all| ==> Sound(all[i], log)
  }

  /** The attachments known to be gap-free are, and those still fed are up to date. */
  ghost predicate Unbroken(all: seq<Attachment>, log: seq<Frame>, whole: set<nat>, feeding: set<nat>) {
    forall i :: i in whole ==>
      && i < |all| && Whole(all[i], log)
      && (i in feeding ==> all[i].cursor + |all[i].received| - 1 == |log|)
  }

  lemma FanoutKeeps(all: seq<Attachment>, log: seq<Frame>, whole: set<nat>, feeding: set<nat>, frame: Frame)
    requires Heard(all, log) && Unbroken(all, log, whole, feeding) && frame.sequence == |log|
    requires forall i :: i in feeding ==> i < |all| && all[i].delivery.Active?
    ensures Heard(Fanout(all, feeding, frame), log + [frame])
    ensures Unbroken(Fanout(all, feeding, frame), log + [frame], whole, feeding)
  {
    var after := Fanout(all, feeding, frame);
    forall i | 0 <= i < |after| ensures Sound(after[i], log + [frame]) {
      if i in feeding { StreamGrows(all[i].received, log, frame); } else { SoundLater(all[i], log, frame); }
    }
    forall i | i in whole
      ensures Whole(after[i], log + [frame])
      ensures i in feeding ==> after[i].cursor + |after[i].received| - 1 == |log + [frame]|
    {
      if i in feeding { WholeGrows(all[i], log, frame); } else { WholeLater(all[i], log, frame); }
    }
  }

  lemma RingGrows(ring: seq<Frame>, log: seq<Frame>, frame: Frame, keep: bool)
    requires Numbered(log) && RingOf(ring, log) && frame.sequence == |log|
    ensures Numbered(log + [frame])
    ensures RingOf(if keep then ring + [frame] else Buffered(ring, frame), log + [frame])
    ensures |Buffered(ring, frame)| == if |ring| >= 256 then |ring| else |ring| + 1
  {
    var longer := log + [frame];
    assert longer[|log| - |ring|..] == ring + [frame];
    if |ring| >= RING { assert (ring + [frame])[1..] == longer[|log| - |ring| + 1..]; }
  }

  function Datas(frames: seq<Frame>): (datas: seq<Bytes>)
    ensures |datas| == |frames| && forall i :: 0 <= i < |datas| ==> datas[i] == frames[i].data
  {
    seq(|frames|, (i: nat) requires i < |frames| => frames[i].data)
  }

  lemma FanoutTwice(all: seq<Attachment>, feeding: set<nat>, frames: seq<Frame>, frame: Frame)
    ensures Fanout(FanoutAll(all, feeding, frames), feeding, frame) == FanoutAll(all, feeding, frames + [frame])
  {
    assert Outs(frames + [frame]) == Outs(frames) + [Out(frame)];
    var twice, once := Fanout(FanoutAll(all, feeding, frames), feeding, frame), FanoutAll(all, feeding, frames + [frame]);
    forall i | 0 <= i < |all| ensures twice[i] == once[i] {
      assert all[i].received + Outs(frames) + [Out(frame)] == all[i].received + Outs(frames + [frame]);
    }
  }

  lemma FanoutNothing(all: seq<Attachment>, feeding: set<nat>)
    ensures FanoutAll(all, feeding, []) == all
  {
    assert forall i :: 0 <= i < |all| ==> all[i].received + Outs([]) == all[i].received;
  }

  lemma UnbrokenShrinks(all: seq<Attachment>, a: Attachment, log: seq<Frame>, whole: set<nat>,
      feeding: set<nat>, fewer: set<nat>)
    requires Heard(all, log) && Unbroken(all, log, whole, feeding) && fewer <= feeding
    requires a.delivery.Accepted? && a.received == []
    ensures Heard(all + [a], log) && Unbroken(all + [a], log, whole, fewer)
  {
  }

  lemma UnbrokenWithFewer(all: seq<Attachment>, log: seq<Frame>, whole: set<nat>, feeding: set<nat>, fewer: set<nat>)
    requires Unbroken(all, log, whole, feeding) && fewer <= feeding
    ensures Unbroken(all, log, whole, fewer)
  {
  }

  lemma NotYetFed(all: seq<Attachment>, log: seq<Frame>, whole: set<nat>, feeding: set<nat>, i: nat, a: Attachment)
    requires Heard(all, log) && Unbroken(all, log, whole, feeding) && i < |all| && Sound(a, log)
    requires all[i].received == []
    ensures Heard(all[i := a], log) && Unbroken(all[i := a], log, whole, feeding)
  {
  }

  lemma HeardAt(all: seq<Attachment>, log: seq<Frame>, i: nat)
    requires Heard(all, log) && i < |all|
    ensures Sound(all[i], log)
  {
  }

  /** The replay of an attachment: everything the ring holds from the later of the requested cursor and its head. */
  function Snapshot(a: Attachment, ring: seq<Frame>, sequence: nat): (staged: Attachment)
    ensures staged.delivery == Staged && staged.received == a.received
    ensures staged.socket == a.socket && staged.mode == a.mode && staged.requested == a.requested
  {
    var cursor := Later(a.requested, Head(ring, sequence));
    var replay := From(ring, cursor);
    var next := if replay == [] then cursor else replay[|replay| - 1].sequence + 1;
    a.(delivery := Staged, cursor := cursor, next := next, replay := replay)
  }

  lemma SnapshotIs(a: Attachment, ring: seq<Frame>, log: seq<Frame>)
    requires Numbered(log) && RingOf(ring, log)
    ensures var staged := Snapshot(a, ring, |log|);
      && staged.cursor == Later(a.requested, |log| - |ring|)
      && staged.next == Later(staged.cursor, |log|) && Replayed(staged, log)
  {
    HeadOfRing(ring, log);
    FromIsSuffix(ring, log, Later(a.requested, |log| - |ring|));
  }

  function FanoutAll(all: seq<Attachment>, feeding: set<nat>, frames: seq<Frame>): (after: seq<Attachment>)
    ensures |after| == |all|
    ensures forall i :: 0 <= i < |all| ==>
      after[i] == if i in feeding then all[i].(received := all[i].received + Outs(frames)) else all[i]
  {
    seq(|all|, (i: nat) requires i < |all| =>
      if i in feeding then all[i].(received := all[i].received + Outs(frames)) else all[i])
  }

  datatype Input = Input(socket: Socket, sequence: nat, data: Bytes)

  /** After a change to one socket exactly the attachments of the other sockets are still fed. */
  ghost predicate FeedsOthers(before: set<nat>, after: set<nat>, all: seq<Attachment>, socket: Socket) {
    && (forall i :: i in after ==> i in before && i < |all| && all[i].socket != socket)
    && (forall i :: i in before ==> i < |all| && (all[i].socket != socket ==> i in after))
  }

  ghost predicate Feeds(all: seq<Attachment>, i: nat, socket: Socket, mode: Mode) {
    i < |all| && all[i].socket == socket && all[i].mode == mode && all[i].delivery.Active?
  }

  /** So far exactly the attachments `done` were given the frame. */
  ghost predicate FedSoFar(before: seq<Attachment>, now: seq<Attachment>, done: set<nat>, frame: Frame) {
    && |now| == |before|
    && forall i :: 0 <= i < |before| ==> now[i] == if i in done then Fed(before[i], frame) else before[i]
  }

  lemma FedNothing(before: seq<Attachment>, frame: Frame)
    ensures FedSoFar(before, before, {}, frame)
  {
  }

  lemma SameUnion(a: set<nat>, b: set<nat>, c: set<nat>)
    ensures forall i: nat :: c == b + {i} ==> a + b + {i} == a + c
    ensures c == b + {} ==> a + b == a + c
  {
  }

  lemma NothingYet(feeding: set<nat>)
    ensures Numbered([]) && RingOf([], []) && Heard([], []) && Unbroken([], [], {}, feeding)
  {
  }

  class Session {
    var ring: seq<Frame>
    var outputSequence: nat
    var expectedInput: nat
    var expectedResize: nat
    var columns: nat
    var rows: nat
    var writable: Option<Socket>
    var onOutput: Option<nat>
    var readOnly: set<Socket>
    var handlers: map<Socket, nat>
    var running: bool
    var attachments: seq<Attachment>
    var closed: set<Socket>
    /** All output ever, the gap-free attachments, and all input the PTY was given. */
    ghost var log: seq<Frame>
    ghost var whole: set<nat>
    ghost var typed: seq<Input>
    /** How many frames there were before the last one of the terminal, once it has exited. */
    ghost var exit: Option<nat>

    /** The attachments a frame goes to: live handlers whose socket is open. */
    function Feeding(): set<nat>
      reads `writable, `onOutput, `readOnly, `handlers, `closed
    {
      (if writable.Some? && writable.value !in closed && onOutput.Some? then {onOutput.value} else {}) + Handlers(readOnly)
    }

    function Handlers(sockets: set<Socket>): set<nat>
      reads `handlers, `closed
    {
      set socket | socket in sockets && socket !in closed && socket in handlers :: handlers[socket]
    }

    /** One writer at most, never also a reader; live handlers only for attached sockets. */
    ghost predicate Owned()
      reads `writable, `onOutput, `readOnly, `handlers, `attachments
    {
      OwnedIn(attachments)
    }

    ghost predicate OwnedIn(all: seq<Attachment>)
      reads `writable, `onOutput, `readOnly, `handlers
    {
      && (writable.Some? ==> writable.value !in readOnly)
      && handlers.Keys <= readOnly
      && (onOutput.Some? ==> writable.Some? && Feeds(all, onOutput.value, writable.value, ReadWrite))
      && (forall socket :: socket in handlers ==> Feeds(all, handlers[socket], socket, ReadOnly))
    }

    /** The ring has exactly the frames it must, and the frame of the exit is marked and no other. */
    ghost predicate Stored()
      reads `ring, `log, `outputSequence, `running, `exit
    {
      && Numbered(log) && RingOf(ring, log) && outputSequence == |log|
      && |ring| == Retained(|log|, exit)
      && running == exit.None? && (exit.Some? ==> exit.value < |log|)
      && (forall i :: 0 <= i < |log| ==> (log[i].eof <==> exit == Some(i)))
    }

    ghost predicate Typed()
      reads `typed, `expectedInput
    {
      |typed| == expectedInput && forall i :: 0 <= i < |typed| ==> typed[i].sequence == i
    }

    ghost predicate Valid()
      reads this
    {
      && Stored() && Owned() && Typed()
      && Heard(attachments, log) && Unbroken(attachments, log, whole, Feeding())
    }

    constructor (columns: nat, rows: nat)
      ensures Valid() && log == [] && attachments == [] && typed == []
    {
      ring, outputSequence, expectedInput, expectedResize := [], 0, 0, 0;
      this.columns, this.rows := columns, rows;
      writable, onOutput, readOnly, handlers, running := None, None, {}, map[], true;
      attachments, closed, log, whole, typed, exit := [], {}, [], {}, [], None;
      new;
      hide Heard, Unbroken, Numbered, RingOf;
      NothingYet(Feeding());
    }

    /** The fan-out loops over the writable socket and the read-only sockets. */
    method Deliver(frame: Frame)
      requires Owned()
      modifies `attachments
      ensures attachments == Fanout(old(attachments), old(Feeding()), frame) && Owned()
    {
      hide Fanout, FedSoFar, OwnedIn, Handlers, Writer, Feeding;
      ghost var before := attachments;
      FeedingParts();
      FedNothing(before, frame);
      if writable.Some? && writable.value !in closed && onOutput.Some? {
        WriterIsAttached();
        Feed(before, {}, onOutput.value, frame);
      }
      ghost var fed: set<Socket> := {};
      var remaining := readOnly;
      while remaining != {}
        invariant fed + remaining == readOnly && fed !! remaining
        invariant FedSoFar(before, attachments, Writer() + Handlers(fed), frame)
        decreases remaining
      {
        var socket :| socket in remaining;
        remaining := remaining - {socket};
        HandlersGrow(fed, socket);
        if socket !in closed && socket in handlers {
          OnlyHandlerOf(before, socket, fed);
          Feed(before, Writer() + Handlers(fed), handlers[socket], frame);
        }
        SameUnion(Writer(), Handlers(fed), Handlers(fed + {socket}));
        fed := fed + {socket};
      }
      assert fed == readOnly;
      FedAll(before, attachments, frame);
    }

    /** `onOutput(frame)`: one attachment's callback. */
    method Feed(ghost before: seq<Attachment>, ghost done: set<nat>, i: nat, frame: Frame)
      requires FedSoFar(before, attachments, done, frame) && i < |before| && i !in done
      modifies `attachments
      ensures FedSoFar(before, attachments, done + {i}, frame)
    {
      attachments := attachments[i := Fed(attachments[i], frame)];
    }

    lemma FedAll(before: seq<Attachment>, now: seq<Attachment>, frame: Frame)
      requires OwnedIn(before) && FedSoFar(before, now, Feeding(), frame)
      ensures OwnedIn(now) && now == Fanout(before, Feeding(), frame)
    {
    }

    lemma WriterIsAttached()
      requires OwnedIn(attachments) && writable.Some? && writable.value !in closed && onOutput.Some?
      ensures onOutput.value < |attachments| && Writer() == {} + {onOutput.value}
    {
    }

    /** The writer's attachment, when it is fed. */
    ghost function Writer(): set<nat>
      reads `writable, `onOutput, `closed
    {
      if writable.Some? && writable.value !in closed && onOutput.Some? then {onOutput.value} else {}
    }

    lemma FeedingParts()
      ensures Feeding() == Writer() + Handlers(readOnly) && Handlers({}) == {}
      ensures Writer() + {} == Writer()
      ensures !(writable.Some? && writable.value !in closed && onOutput.Some?) ==> Writer() == {}
    {
    }

    lemma HandlersGrow(sockets: set<Socket>, socket: Socket)
      ensures Handlers(sockets + {socket})
           == Handlers(sockets) + if socket !in closed && socket in handlers then {handlers[socket]} else {}
    {
    }

    /** No attachment is fed twice: a handler belongs to one socket, and that is not the writer's. */
    lemma OnlyHandlerOf(before: seq<Attachment>, socket: Socket, others: set<Socket>)
      requires OwnedIn(before) && socket in handlers && socket !in others
      ensures handlers[socket] < |before| && handlers[socket] !in Writer() + Handlers(others)
    {
      forall other | other in others && other in handlers ensures handlers[other] != handlers[socket] {
        assert Feeds(before, handlers[other], other, ReadOnly);
      }
    }

    lemma FeedingIsActive()
      requires Owned()
      ensures forall i :: i in Feeding() ==> i < |attachments| && attachments[i].delivery.Active?
    {
    }

    /** One frame: numbered, buffered, sent out. */
    method Emit(data: Bytes, eof: bool)
      requires Valid() && (eof ==> running)
      modifies `ring, `outputSequence, `running, `exit, `log, `attachments
      ensures log == old(log) + [Frame(|old(log)|, eof, data)] && running == (old(running) && !eof)
      ensures exit == if eof then Some(|old(log)|) else old(exit)
      ensures attachments == Fanout(old(attachments), old(Feeding()), log[|old(log)|])
      ensures Valid()
    {
      hide Heard, Unbroken, Stored, Fanout, Owned, Feeding, Typed;
      var frame := Frame(outputSequence, eof, data);
      ghost var feeding := Feeding();
      FeedingIsActive();
      StoredLength();
      FanoutKeeps(attachments, log, whole, feeding, frame);
      Store(frame);
      Deliver(frame);
    }

    lemma StoredLength()
      requires Stored()
      ensures outputSequence == |log|
    {
    }

    /** `bufferedFrames.push`, with the bound for everything but the last frame. */
    method Store(frame: Frame)
      requires Stored() && frame.sequence == |log| && (frame.eof ==> running)
      modifies `ring, `outputSequence, `running, `exit, `log
      ensures Stored() && log == old(log) + [frame] && running == (old(running) && !frame.eof)
      ensures exit == if frame.eof then Some(|old(log)|) else old(exit)
    {
      RingGrows(ring, log, frame, frame.eof);
      hide Numbered, RingOf;
      outputSequence := outputSequence + 1;
      if frame.eof {
        running, exit := false, Some(|log|);
        ring := ring + [frame];
      } else {
        ring := Buffered(ring, frame);
      }
      log := log + [frame];
    }

    /** PTY output: cut into frames, each stored and sent to everything that is fed. */
    method Data(bytes: Bytes)
      requires Valid()
      modifies `ring, `outputSequence, `running, `exit, `log, `attachments
      ensures Valid() && running == old(running) && exit == old(exit)
      ensures |ring| == Retained(|log|, exit)
      ensures old(log) <= log && Datas(log[|old(log)|..]) == Chunks(bytes)
      ensures attachments == FanoutAll(old(attachments), Feeding(), log[|old(log)|..])
    {
      hide Stored, Owned, Typed, Heard, Unbroken, Feeding;
      ghost var feeding, start := Feeding(), |log|;
      var offset := 0;
      assert log[start..] == [] && bytes[0..] == bytes;
      FanoutNothing(attachments, feeding);
      while offset < |bytes|
        invariant offset <= |bytes| || offset - CHUNK < |bytes|
        invariant Valid() && running == old(running) && exit == old(exit)
        invariant old(log) <= log && |old(log)| == start
        invariant Datas(log[start..]) + Chunks(if offset < |bytes| then bytes[offset..] else []) == Chunks(bytes)
        invariant attachments == FanoutAll(old(attachments), feeding, log[start..])
        decreases |bytes| - offset
      {
        var end := if offset + CHUNK < |bytes| then offset + CHUNK else |bytes|;
        ghost var before := log[start..];
        Emit(bytes[offset..end], false);
        assert log[start..] == before + [log[|log| - 1]];
        FanoutTwice(old(attachments), feeding, before, log[|log| - 1]);
        ChunkTaken(bytes, offset, before, log[|log| - 1]);
        offset := offset + CHUNK;
      }
      RingIsFull();
    }

    lemma RingIsFull()
      requires Stored()
      ensures |ring| == Retained(|log|, exit)
    {
    }

    /** The PTY exits: one last, empty frame. */
    method Exit()
      requires Valid() && running
      modifies `ring, `outputSequence, `running, `exit, `log, `attachments
      ensures Valid() && !running && log == old(log) + [Frame(|old(log)|, true, [])]
      ensures exit == Some(|old(log)|) && |ring| == |old(ring)| + 1
      ensures attachments == Fanout(old(attachments), old(Feeding()), log[|old(log)|])
    {
      Emit([], true);
    }

    /** The synchronous first part of `attach`: ownership changes hands before anything is replayed. */
    method Accept(socket: Socket, known: bool, wanted: Requested, cursor: int) returns (r: Outcome<nat>)
      requires Valid()
      modifies `writable, `onOutput, `readOnly, `handlers, `attachments
      ensures Valid()
      ensures r == Refused(NotFound) <==> !known || cursor < 0
      ensures r == Refused(WriteConflict) <==>
        known && cursor >= 0 && wanted == WantWrite && old(writable).Some? && old(writable).value != socket
      ensures r.Refused? ==> attachments == old(attachments) && writable == old(writable) && readOnly == old(readOnly)
      ensures r.Ok? ==> r.value == |old(attachments)| && |attachments| == r.value + 1
      ensures r.Refused? ==> Feeding() == old(Feeding())
      ensures r.Ok? ==> FeedsOthers(old(Feeding()), Feeding(), attachments, socket)
      ensures r.Ok? ==>
        var a := attachments[r.value];
        && attachments == old(attachments) + [a] && a.received == []
        && a.socket == socket && a.requested == cursor && a.delivery == Accepted
        && (a.mode == ReadOnly <==>
              || wanted == WantRead
              || (wanted == WantWriteIfAvailable && old(writable).Some? && old(writable).value != socket))
        && (a.mode == ReadWrite ==> writable == Some(socket) && readOnly == old(readOnly) - {socket})
        && (a.mode == ReadOnly ==>
              && writable == (if old(writable) == Some(socket) then None else old(writable))
              && readOnly == old(readOnly) + {socket})
    {
      if !known || cursor < 0 { return Refused(NotFound); }
      hide Valid, Feeding;
      var taken := writable.Some? && writable.value != socket;
      var mode := match wanted
        case WantWriteIfAvailable => if taken then ReadOnly else ReadWrite
        case WantWrite => ReadWrite
        case WantRead => ReadOnly;
      if mode == ReadWrite && taken { return Refused(WriteConflict); }
      var i := Enter(socket, mode, cursor);
      return Ok(i);
    }

    /** Ownership changes hands, and the new attachment is recorded. */
    method Enter(socket: Socket, mode: Mode, cursor: nat) returns (i: nat)
      requires Valid() && (mode == ReadWrite ==> writable in {None, Some(socket)})
      modifies `writable, `onOutput, `readOnly, `handlers, `attachments
      ensures Valid() && i == |old(attachments)|
      ensures attachments == old(attachments) + [Attachment(socket, mode, cursor, Accepted, 0, 0, [], [])]
      ensures FeedsOthers(old(Feeding()), Feeding(), attachments, socket)
      ensures mode == ReadWrite ==> writable == Some(socket) && readOnly == old(readOnly) - {socket}
      ensures mode == ReadOnly ==>
        && writable == (if old(writable) == Some(socket) then None else old(writable))
        && readOnly == old(readOnly) + {socket}
    {
      hide Stored, Typed, Heard, Unbroken, Owned, Feeding;
      ghost var before := Feeding();
      TakeOver(socket, mode);
      var a := Attachment(socket, mode, cursor, Accepted, 0, 0, [], []);
      UnbrokenShrinks(attachments, a, log, whole, before, Feeding());
      Add(a);
      return |attachments| - 1;
    }

    /** The socket becomes the writer or a reader; its earlier handlers are gone. */
    method TakeOver(socket: Socket, mode: Mode)
      requires Owned() && (mode == ReadWrite ==> writable in {None, Some(socket)})
      modifies `writable, `onOutput, `readOnly, `handlers
      ensures Owned() && Feeding() <= old(Feeding())
      ensures FeedsOthers(old(Feeding()), Feeding(), attachments, socket)
      ensures mode == ReadWrite ==> writable == Some(socket) && readOnly == old(readOnly) - {socket}
      ensures mode == ReadOnly ==>
        && writable == (if old(writable) == Some(socket) then None else old(writable))
        && readOnly == old(readOnly) + {socket}
    {
      if mode == ReadWrite {
        writable, onOutput := Some(socket), None;
        readOnly, handlers := readOnly - {socket}, handlers - {socket};
      } else {
        if writable == Some(socket) { writable, onOutput := None, None; }
        readOnly, handlers := readOnly + {socket}, handlers - {socket};
      }
    }

    method Add(a: Attachment)
      requires Owned()
      modifies `attachments
      ensures Owned() && attachments == old(attachments) + [a]
    {
      attachments := attachments + [a];
    }

    lemma StoredRing()
      requires Stored()
      ensures Numbered(log) && RingOf(ring, log) && outputSequence == |log| && |ring| == Retained(|log|, exit)
      ensures running ==> exit.None?
    {
    }

    /** The record of an attachment that nothing feeds changes. */
    method Replace(i: nat, a: Attachment)
      requires Owned() && i < |attachments| && attachments[i].delivery != Active
      modifies `attachments
      ensures Owned() && attachments == old(attachments)[i := a]
    {
      attachments := attachments[i := a];
    }

    /** The second part of `attach`: the snapshot of the ring. */
    method Stage(i: nat) returns (resynchronized: bool)
      requires Valid() && i < |attachments| && attachments[i].delivery == Accepted
      modifies `attachments
      ensures Valid() && |attachments| == |old(attachments)|
      ensures var a := attachments[i];
        && attachments == old(attachments)[i := a]
        && a.delivery == Staged && a.socket == old(attachments)[i].socket && a.mode == old(attachments)[i].mode
        && a.requested == old(attachments)[i].requested
        && a.cursor == Later(a.requested, |log| - Retained(|log|, exit)) && a.next == Later(a.cursor, |log|)
        && Replayed(a, log)
      ensures resynchronized <==> old(attachments)[i].requested < |log| - Retained(|log|, exit)
    {
      hide Stored, Typed, Owned, Feeding, Unbroken, Heard, Snapshot, Numbered, RingOf;
      StoredRing();
      var staged := Snapshot(attachments[i], ring, outputSequence);
      SnapshotIs(attachments[i], ring, log);
      HeardAt(attachments, log, i);
      NotYetFed(attachments, log, whole, Feeding(), i, staged);
      Replace(i, staged);
      return staged.cursor != staged.requested;
    }

    /** Whether the attachment's socket still has the role it was accepted for. */
    predicate Attached(a: Attachment)
      reads `writable, `readOnly
    {
      if a.mode == ReadWrite then writable == Some(a.socket) else a.socket in readOnly
    }

    /**
     `activate`: acknowledgement, replay, what the ring has beyond it, and only then
     the live handler. `answered` callbacks return; if not all do, one of them threw.
     */
    method Activate(i: nat, answered: nat) returns (r: Activation)
      requires Valid() && i < |attachments| && attachments[i].delivery != Accepted
      modifies `attachments, `onOutput, `handlers, `whole
      ensures Valid()
      ensures |attachments| == |old(attachments)|
      ensures var was := old(attachments)[i];
        && (r == NotActivated <==> was.delivery != Staged || !Attached(was))
        && (r == NotActivated ==> attachments == old(attachments))
      ensures r != NotActivated ==>
        var was := old(attachments)[i];
        var events := [Ack] + Outs(Handover(was, ring));
        && (r == Activated <==> answered >= |events|)
        && attachments == old(attachments)[i := attachments[i]]
        && attachments[i].received == (if r == Activated then events else events[..answered])
        && attachments[i].delivery == (if r == Activated then Active else Failed)
      ensures r == Activated && attachments[i].socket !in closed ==> i in Feeding()
      ensures r == Activated ==> FeedsOthers(old(Feeding()), Feeding() - {i}, attachments, attachments[i].socket)
      ensures r != Activated ==> Feeding() == old(Feeding())
      ensures r == Activated ==>
        var was := old(attachments)[i];
        i in whole <==> was.cursor <= |log| && |log| - Retained(|log|, exit) <= was.next
    {
      var a := attachments[i];
      if a.delivery != Staged || !Attached(a) { return NotActivated; }
      hide Valid, Handover, Stored, Attached, Feeding;
      var events := [Ack] + Outs(Handover(a, ring));
      if answered < |events| {
        Fail(i, answered);
        return CallbackFailed;
      }
      Succeed(i);
      return Activated;
    }

    /** A callback threw: what the others were given stays given, nothing is installed. */
    method Fail(i: nat, answered: nat)
      requires Valid() && i < |attachments| && attachments[i].delivery == Staged
      requires answered < |[Ack] + Outs(Handover(attachments[i], ring))|
      modifies `attachments
      ensures Valid()
      ensures var was := old(attachments)[i];
        attachments == old(attachments)[i := was.(delivery := Failed,
                                                  received := ([Ack] + Outs(Handover(was, ring)))[..answered])]
    {
      hide Stored, Typed, Owned, Feeding, Unbroken, Heard, Handover, Numbered, RingOf, Stream, Replayed, Whole;
      var a := attachments[i];
      StoredRing();
      HeardAt(attachments, log, i);
      HandoverIsStream(a, ring, log);
      var events := [Ack] + Outs(Handover(a, ring));
      PrefixIsStream(events, log, answered);
      var failed := a.(delivery := Failed, received := events[..answered]);
      NotYetFed(attachments, log, whole, Feeding(), i, failed);
      Replace(i, failed);
    }

    /** All callbacks returned. */
    method Succeed(i: nat)
      requires Valid() && i < |attachments| && attachments[i].delivery == Staged && Attached(attachments[i])
      modifies `attachments, `onOutput, `handlers, `whole
      ensures Valid()
      ensures var was := old(attachments)[i];
        && attachments == old(attachments)[i := was.(delivery := Active, received := [Ack] + Outs(Handover(was, ring)))]
        && (i in whole <==> was.cursor <= |log| && |log| - Retained(|log|, exit) <= was.next)
        && (was.socket !in closed ==> i in Feeding())
        && FeedsOthers(old(Feeding()), Feeding() - {i}, attachments, was.socket)
    {
      hide Stored, Typed, Owned, Feeding, Unbroken, Heard, Handover, Numbered, RingOf, Stream, Replayed, Whole, Sound, Retained,
        Outs, FeedsOthers;
      var a := attachments[i];
      StoredRing();
      HeardAt(attachments, log, i);
      var active := a.(delivery := Active, received := [Ack] + Outs(Handover(a, ring)));
      ghost var gapless := a.cursor <= |log| && |log| - |ring| <= a.next;
      ActiveIs(a, ring, log, active, gapless);
      ghost var before, all := Feeding(), attachments;
      Replace(i, active);
      Install(i);
      Activates(all, log, whole, before, Feeding(), i, active, gapless);
      whole := if gapless then whole + {i} else whole;
    }

    /** The live handler of the socket is now this attachment's. */
    method Install(i: nat)
      requires Owned() && i < |attachments| && attachments[i].delivery.Active? && Attached(attachments[i])
      modifies `onOutput, `handlers
      ensures Owned() && Feeding() <= old(Feeding()) + {i}
      ensures attachments[i].socket !in closed ==> i in Feeding()
      ensures FeedsOthers(old(Feeding()), Feeding() - {i}, attachments, attachments[i].socket)
    {
      var socket := attachments[i].socket;
      if attachments[i].mode == ReadWrite {
        onOutput := Some(i);
      } else {
        handlers := handlers[socket := i];
      }
    }

    /** `write`: only the writer's next input, and only to a running PTY. */
    method Write(socket: Socket, known: bool, sequence: nat, eof: bool, data: Bytes) returns (r: Outcome<bool>)
      requires Valid()
      modifies `expectedInput, `typed
      ensures Valid()
      ensures r == Ok(false) <==> !known
      ensures r == Refused(WriteRequired) <==> known && writable != Some(socket)
      ensures r == Ok(true) <==> known && writable == Some(socket) && sequence == |old(typed)| && !eof && running
      ensures r.Refused? ==> r.reason in {WriteRequired, InputConflict}
      ensures typed == if r == Ok(true) then old(typed) + [Input(socket, sequence, data)] else old(typed)
    {
      if !known { return Ok(false); }
      if writable != Some(socket) { return Refused(WriteRequired); }
      if sequence != expectedInput || eof || !running { return Refused(InputConflict); }
      expectedInput := expectedInput + 1;
      typed := typed + [Input(socket, sequence, data)];
      return Ok(true);
    }

    /** `resize`: `accepts` is whether the PTY takes the new size; a refused one uses up no sequence number. */
    method Resize(socket: Socket, known: bool, sequence: int, newColumns: int, newRows: int, accepts: bool)
      returns (r: Outcome<bool>)
      requires Valid()
      modifies `expectedResize, `columns, `rows
      ensures Valid()
      ensures r.Ok? <==>
        && known && writable == Some(socket) && sequence == old(expectedResize)
        && 20 <= newColumns <= 500 && 5 <= newRows <= 200 && running && accepts
      ensures r == Refused(NotFound) <==> !known
      ensures r == Refused(ResizeRequired) <==> known && writable != Some(socket)
      ensures r == Refused(ResizeInvalid) <==>
        && known && writable == Some(socket) && sequence == old(expectedResize)
        && !(20 <= newColumns <= 500 && 5 <= newRows <= 200)
      ensures r == Refused(ResizeFailed) ==> running && !accepts
      ensures r.Refused? ==> r.reason in {NotFound, ResizeRequired, ResizeConflict, ResizeInvalid, ResizeFailed}
      ensures r == Refused(ResizeConflict) ==> sequence != old(expectedResize) || !running
      ensures if r.Ok? then expectedResize == old(expectedResize) + 1 && columns == newColumns && rows == newRows
              else expectedResize == old(expectedResize) && columns == old(columns) && rows == old(rows)
    {
      if !known { return Refused(NotFound); }
      if writable != Some(socket) { return Refused(ResizeRequired); }
      if sequence != expectedResize { return Refused(ResizeConflict); }
      if newColumns < 20 || newColumns > 500 || newRows < 5 || newRows > 200 { return Refused(ResizeInvalid); }
      if !running { return Refused(ResizeConflict); }
      if !accepts { return Refused(ResizeFailed); }
      expectedResize, columns, rows := expectedResize + 1, newColumns, newRows;
      return Ok(true);
    }

    /** `detach`: the socket has no role and nothing is sent to it any more. */
    method Detach(socket: Socket)
      requires Valid()
      modifies `writable, `onOutput, `readOnly, `handlers
      ensures Valid() && Feeding() <= old(Feeding())
      ensures writable == (if old(writable) == Some(socket) then None else old(writable))
      ensures readOnly == old(readOnly) - {socket}
      ensures FeedsOthers(old(Feeding()), Feeding(), attachments, socket)
    {
      hide Stored, Typed, Heard, Unbroken, Owned, Feeding;
      ghost var before := Feeding();
      Leave(socket);
      UnbrokenWithFewer(attachments, log, whole, before, Feeding());
    }

    method Leave(socket: Socket)
      requires Owned()
      modifies `writable, `onOutput, `readOnly, `handlers
      ensures Owned() && Feeding() <= old(Feeding())
      ensures writable == (if old(writable) == Some(socket) then None else old(writable))
      ensures readOnly == old(readOnly) - {socket}
      ensures FeedsOthers(old(Feeding()), Feeding(), attachments, socket)
    {
      if writable == Some(socket) { writable, onOutput := None, None; }
      readOnly, handlers := readOnly - {socket}, handlers - {socket};
    }

    /** A socket leaves the open state for good; it keeps its role until it is detached. */
    method Close(socket: Socket)
      requires Valid()
      modifies `closed
      ensures Valid() && closed == old(closed) + {socket}
      ensures FeedsOthers(old(Feeding()), Feeding(), attachments, socket)
    {
      closed := closed + {socket};
    }
  }

  datatype Activation = NotActivated | Activated | CallbackFailed

  /** Any interleaving of output, exit, attachments in all stages, input, resizes, detaching and closing. */
  method Interleave(s: Session, steps: nat)
    requires s.Valid()
    modifies s
    ensures s.Valid()
    ensures forall i :: 0 <= i < |s.attachments| && s.attachments[i].received != [] ==> Stream(s.attachments[i].received, s.log)
    ensures forall i :: i in s.whole ==> i < |s.attachments| && Whole(s.attachments[i], s.log)
    ensures forall i :: i in s.whole * s.Feeding() ==> s.attachments[i].cursor + |s.attachments[i].received| - 1 == |s.log|
  {
    var done := 0;
    while done < steps
      invariant s.Valid()
    {
      Step(s);
      done := done + 1;
    }
  }

  method Step(s: Session)
    requires s.Valid()
    modifies s
    ensures s.Valid()
  {
    var choice: nat, socket: Socket, sequence: nat := *, *, *;
    var known, flag: bool := *, *;
    var bytes: Bytes := *;
    var number, columns, rows: int := *, *, *;
    var wanted: Requested := *;
    if choice == 0 {
      s.Data(bytes);
    } else if choice == 1 && s.running {
      s.Exit();
    } else if choice == 2 {
      var r := s.Accept(socket, known, wanted, number);
    } else if choice == 3 && sequence < |s.attachments| && 0 <= sequence && s.attachments[sequence].delivery == Accepted {
      var r := s.Stage(sequence);
    } else if choice == 4 && 0 <= sequence < |s.attachments| && s.attachments[sequence].delivery != Accepted {
      var r := s.Activate(sequence, if number < 0 then 0 else number);
    } else if choice == 5 && 0 <= sequence {
      var r := s.Write(socket, known, sequence, flag, bytes);
    } else if choice == 6 {
      var r := s.Resize(socket, known, number, columns, rows, flag);
    } else if choice == 7 {
      s.Detach(socket);
    } else {
      s.Close(socket);
    }
  }

  lemma PrefixIsStream(events: seq<Event>, log: seq<Frame>, n: nat)
    requires Stream(events, log) && n <= |events|
    ensures events[..n] == [] || Stream(events[..n], log)
  {
  }

  /** A staged attachment whose callbacks all returned. */
  lemma ActiveIs(a: Attachment, ring: seq<Frame>, log: seq<Frame>, active: Attachment, gapless: bool)
    requires Numbered(log) && RingOf(ring, log) && a.delivery == Staged && Sound(a, log)
    requires active == a.(delivery := Active, received := [Ack] + Outs(Handover(a, ring)))
    requires gapless <==> a.cursor <= |log| && |log| - |ring| <= a.next
    ensures a.received == [] && Sound(active, log)
    ensures gapless ==> Whole(active, log) && active.cursor + |active.received| - 1 == |log|
  {
    hide Handover, Numbered, RingOf, Stream, Replayed, Whole;
    HandoverIsStream(a, ring, log);
    HeadOfRing(ring, log);
    if gapless {
      HandoverIsWhole(a, ring, log);
      WholeAtHandover(active, log);
    }
  }

  lemma WholeAtHandover(a: Attachment, log: seq<Frame>)
    requires a.cursor <= |log| && a.received == [Ack] + Outs(log[a.cursor..])
    ensures Whole(a, log) && a.cursor + |a.received| - 1 == |log|
  {
    assert log[a.cursor..|log|] == log[a.cursor..];
  }

  lemma Activates(all: seq<Attachment>, log: seq<Frame>, whole: set<nat>, before: set<nat>, after: set<nat>,
      i: nat, a: Attachment, gapless: bool)
    requires Heard(all, log) && Unbroken(all, log, whole, before) && after <= before + {i}
    requires i < |all| && all[i].received == [] && Sound(a, log)
    requires gapless ==> Whole(a, log) && a.cursor + |a.received| - 1 == |log|
    ensures Heard(all[i := a], log) && i !in whole
    ensures Unbroken(all[i := a], log, if gapless then whole + {i} else whole, after)
  {
  }

  lemma ChunkTaken(bytes: Bytes, offset: nat, before: seq<Frame>, frame: Frame)
    requires offset < |bytes|
    requires frame.data == bytes[offset..if offset + CHUNK < |bytes| then offset + CHUNK else |bytes|]
    ensures Datas(before + [frame]) + Chunks(if offset + CHUNK < |bytes| then bytes[offset + CHUNK..] else [])
         == Datas(before) + Chunks(bytes[offset..])
  {
    var rest := bytes[offset..];
    assert Datas(before + [frame]) == Datas(before) + [frame.data];
    if offset + CHUNK < |bytes| {
      assert rest[..CHUNK] == frame.data && rest[CHUNK..] == bytes[offset + CHUNK..];
      assert Chunks(rest) == [frame.data] + Chunks(bytes[offset + CHUNK..]);
    } else {
      assert rest == frame.data;
      assert Chunks(rest) == [frame.data];
    }
  }
}
