/**
 The audio gateway loop (`audio_socket` in `backend/app/api/meetings.py`): frames of
 16 kHz 16-bit PCM arrive on one connection, are numbered and recorded once, and are
 handed to speech recognition in overlapping windows of at least two seconds.
 Database and socket operations succeed; recognition may fail after being called,
 which changes nothing modelled here.
 */
module AudioGateway {
  import opened Prelude

  type Byte = bv8

  const HEADER: nat := 8
  const WINDOW: nat := 64_000
  const TAIL: nat := 16_000
  // Bytes of one millisecond of audio.
  const MS: nat := 32

  datatype Status = Active | Inactive | Missing

  // A received frame and what the database says of the meeting at that moment.
  datatype Input = Input(frame: seq<Byte>, meeting: Status)

  datatype Chunk = Chunk(start: int, end: int, size: nat)

  // Audio handed to `transcribe`; `offset` locates it in the connection's accepted audio.
  datatype Window = Window(offset: nat, startMs: int, audio: seq<Byte>)

  datatype Gap = Gap(expected: nat, received: nat)

  datatype Session = Session(
    buffer: seq<Byte>,
    expected: nat,
    windowStart: int,
    stored: map<nat, Chunk>,
    known: bool,
    open: bool,
    // What happened on this connection so far.
    base: nat,
    accepted: seq<Byte>,
    recorded: seq<Chunk>,
    windows: seq<Window>,
    gaps: seq<Gap>)

  function Begin(startMs: int, stored: map<nat, Chunk>): Session {
    Session([], 0, startMs, stored, false, true, 0, [], [], [], [])
  }

  function LittleEndian(bytes: seq<Byte>): nat {
    if bytes == [] then 0 else bytes[0] as nat + 256 * LittleEndian(bytes[1..])
  }

  function Clock(s: Session): int {
    s.windowStart + |s.buffer| / MS
  }

  // Hand the whole buffer over and keep its last half second.
  function Transcribe(s: Session): Session {
    var advance := Max(|s.buffer| - TAIL, 0);
    s.(windows := s.windows + [Window(s.base, s.windowStart, s.buffer)],
    windowStart := s.windowStart + advance / MS,
    base := s.base + advance,
    buffer := s.buffer[advance..])
  }

  function Accept(s: Session, sequence: nat, audio: seq<Byte>): Session {
    var chunk := Chunk(Clock(s), Clock(s) + |audio| / MS, |audio|);
    s.(stored := s.stored[sequence := chunk], recorded := s.recorded + [chunk],
    accepted := s.accepted + audio, buffer := s.buffer + audio)
  }

  function Absorb(s: Session, sequence: nat, audio: seq<Byte>): Session {
    var longer := Accept(s, sequence, audio);
    if |longer.buffer| >= WINDOW then Transcribe(longer) else longer
  }

  // Report a jump in the numbering and expect the next number.
  function Note(s: Session, sequence: nat): Session {
    var gaps := if sequence != s.expected then s.gaps + [Gap(s.expected, sequence)] else s.gaps;
    s.(known := true, gaps := gaps, expected := sequence + 1)
  }

  // `limit` is the configured largest frame.
  function Receive(limit: nat, s: Session, input: Input): Session {
    var frame := input.frame;
    if !s.open then s
    else if |frame| < HEADER || |frame| > limit then s.(open := false)
    else if !input.meeting.Active? then s.(known := input.meeting.Inactive?)
    else
      var sequence := LittleEndian(frame[..HEADER]);
      var noted := Note(s, sequence);
      if sequence in s.stored then noted else Absorb(noted, sequence, frame[HEADER..])
  }

  function Serve(limit: nat, s: Session, inputs: seq<Input>): Session {
    if inputs == [] then s
    else Receive(limit, Serve(limit, s, inputs[..|inputs| - 1]), inputs[|inputs| - 1])
  }

  predicate Flushes(s: Session) {
    s.open && s.known && |s.buffer| > TAIL
  }

  // The client went away: flush what lies beyond the retained tail.
  function Disconnect(s: Session): Session {
    (if Flushes(s) then s.(windows := s.windows + [Window(s.base, s.windowStart, s.buffer)]) else s)
    .(open := false)
  }

  /** One frame that passed the checks: record its audio, and hand the buffer over once it is full. */
  method TakeAudio(s: Session, sequence: nat, audio: seq<Byte>) returns (t: Session)
    ensures t == Absorb(s, sequence, audio)
  {
    var buffer, windowStart, windows, base := s.buffer, s.windowStart, s.windows, s.base;
    var start := windowStart + |buffer| / MS;
    var chunk := Chunk(start, start + |audio| / MS, |audio|);
    buffer := buffer + audio;
    if |buffer| >= WINDOW {
      windows := windows + [Window(base, windowStart, buffer)];
      var advance := Max(|buffer| - TAIL, 0);
      windowStart := windowStart + advance / MS;
      base := base + advance;
      buffer := buffer[advance..];
    }
    t := s.(buffer := buffer, windowStart := windowStart, windows := windows, base := base,
    stored := s.stored[sequence := chunk], recorded := s.recorded + [chunk], accepted := s.accepted + audio);
  }

  /** The handler itself: one loop over the received frames, then the disconnect. */
  method AudioSocket(limit: nat, startMs: int, stored: map<nat, Chunk>, inputs: seq<Input>)
    returns (s: Session)
    ensures s == Disconnect(Serve(limit, Begin(startMs, stored), inputs))
  {
    s := Begin(startMs, stored);
    for i := 0 to |inputs|
      invariant s == Serve(limit, Begin(startMs, stored), inputs[..i])
    {
      var frame, meeting := inputs[i].frame, inputs[i].meeting;
      assert inputs[..i + 1][..i] == inputs[..i];
      if s.open && (|frame| < HEADER || |frame| > limit) {
        s := s.(open := false);
      } else if s.open {
        s := s.(known := !meeting.Missing?);
        if meeting.Active? {
          var sequence := LittleEndian(frame[..HEADER]);
          if sequence != s.expected {
            s := s.(gaps := s.gaps + [Gap(s.expected, sequence)]);
          }
          s := s.(expected := sequence + 1);
          if sequence !in s.stored {
            s := TakeAudio(s, sequence, frame[HEADER..]);
          }
        }
      }
    }
    assert inputs[..|inputs|] == inputs;
    if s.open && s.known && |s.buffer| > TAIL {
      s := s.(windows := s.windows + [Window(s.base, s.windowStart, s.buffer)]);
    }
    s := s.(open := false);
  }

  // ---- what every frame keeps ----

  predicate Ends(w: Window, end: nat) {
    w.offset + |w.audio| == end
  }

  // A window is a stretch of the accepted audio.
  predicate Faithful(accepted: seq<Byte>, w: Window) {
    w.offset + |w.audio| <= |accepted| && w.audio == accepted[w.offset..w.offset + |w.audio|]
  }

  // Each window starts half a second before the previous one ended.
  predicate Chained(windows: seq<Window>) {
    && (windows != [] ==> windows[0].offset == 0)
    && forall i | 0 < i < |windows| ::
         Ends(windows[i - 1], windows[i].offset + TAIL)
  }

  ghost predicate BufferInv(s: Session) {
    |s.buffer| < WINDOW && Windowed(s.buffer, s.base, s.accepted, s.windows)
  }

  // The windows tile the accepted audio up to the buffer's retained tail.
  ghost predicate Windowed(buffer: seq<Byte>, base: nat, accepted: seq<Byte>, windows: seq<Window>) {
    && base <= |accepted| && buffer == accepted[base..]
    && Chained(windows)
    && (forall i | 0 <= i < |windows| :: Faithful(accepted, windows[i]) && |windows[i].audio| >= WINDOW)
    && (if windows == [] then base == 0
        else |buffer| >= TAIL && Ends(windows[|windows| - 1], base + TAIL))
  }

  // How far a window's label may lag behind its true position, in bytes.
  predicate Lags(startMs: int, windows: nat, offset: nat, mark: int) {
    0 <= offset - MS * (mark - startMs) <= (MS - 1) * windows
  }

  ghost predicate TimeInv(startMs: int, s: Session) {
    && Labelled(startMs, s.base, s.windowStart, s.windows)
    && Timeline(startMs, Clock(s), s.recorded)
  }

  ghost predicate Labelled(startMs: int, base: nat, windowStart: int, windows: seq<Window>) {
    && Lags(startMs, |windows|, base, windowStart)
    && forall i | 0 <= i < |windows| :: Lags(startMs, i, windows[i].offset, windows[i].startMs)
  }

  // Chunks follow each other from the start without overlap, at most 1 ms apart.
  ghost predicate Timeline(startMs: int, clock: int, recorded: seq<Chunk>) {
    && (if recorded == [] then clock == startMs
        else recorded[0].start == startMs && 0 <= clock - recorded[|recorded| - 1].end <= 1)
    && forall i | 0 < i < |recorded| :: 0 <= recorded[i].start - recorded[i - 1].end <= 1
  }

  /** Advancing the window moves neither the gateway's clock nor any audio. */
  lemma AdvanceKeepsClock(s: Session)
    requires |s.buffer| >= WINDOW
    ensures Clock(Transcribe(s)) == Clock(s)
    ensures |Transcribe(s).buffer| == TAIL
  {
  }

  lemma AcceptKeepsWindows(s: Session, sequence: nat, audio: seq<Byte>)
    requires BufferInv(s)
    ensures var longer := Accept(s, sequence, audio);
            Windowed(longer.buffer, longer.base, longer.accepted, longer.windows)
  {
    var longer := Accept(s, sequence, audio);
    forall i | 0 <= i < |s.windows| ensures Faithful(longer.accepted, s.windows[i]) {
      assert Faithful(s.accepted, s.windows[i]);
    }
  }

  lemma TranscribeKeepsWindows(s: Session)
    requires |s.buffer| >= WINDOW && Windowed(s.buffer, s.base, s.accepted, s.windows)
    ensures BufferInv(Transcribe(s))
  {
    var w := Window(s.base, s.windowStart, s.buffer);
    assert Faithful(s.accepted, w);
    var after := Transcribe(s);
    assert after.buffer == after.accepted[after.base..];
  }

  lemma AcceptKeepsTime(startMs: int, s: Session, sequence: nat, audio: seq<Byte>)
    requires TimeInv(startMs, s)
    ensures TimeInv(startMs, Accept(s, sequence, audio))
  {
  }

  lemma TranscribeKeepsTime(startMs: int, s: Session)
    requires |s.buffer| >= WINDOW && TimeInv(startMs, s)
    ensures TimeInv(startMs, Transcribe(s))
  {
    AdvanceKeepsClock(s);
    var w := Window(s.base, s.windowStart, s.buffer);
    assert Lags(startMs, |s.windows|, w.offset, w.startMs);
  }

  lemma AbsorbKeepsInvariants(startMs: int, s: Session, sequence: nat, audio: seq<Byte>)
    requires BufferInv(s) && TimeInv(startMs, s)
    ensures BufferInv(Absorb(s, sequence, audio)) && TimeInv(startMs, Absorb(s, sequence, audio))
  {
    var longer := Accept(s, sequence, audio);
    AcceptKeepsWindows(s, sequence, audio);
    AcceptKeepsTime(startMs, s, sequence, audio);
    if |longer.buffer| >= WINDOW {
      TranscribeKeepsWindows(longer);
      TranscribeKeepsTime(startMs, longer);
    }
  }

  // A frame that adds no audio leaves buffer, windows and times alone.
  predicate SameAudio(s: Session, t: Session) {
    && t.buffer == s.buffer && t.base == s.base && t.accepted == s.accepted && t.windows == s.windows
    && t.windowStart == s.windowStart && t.recorded == s.recorded
  }

  lemma SameAudioKeepsInvariants(startMs: int, s: Session, t: Session)
    requires SameAudio(s, t) && BufferInv(s) && TimeInv(startMs, s)
    ensures BufferInv(t) && TimeInv(startMs, t)
  {
  }

  predicate IsHandled(limit: nat, s: Session, input: Input) {
    s.open && HEADER <= |input.frame| <= limit && input.meeting.Active?
  }

  lemma IgnoredAddsNothing(limit: nat, s: Session, input: Input)
    requires !IsHandled(limit, s, input)
    ensures SameAudio(s, Receive(limit, s, input))
  {
  }

  lemma HandledIsAbsorbed(limit: nat, s: Session, input: Input)
    requires IsHandled(limit, s, input)
    ensures var sequence := LittleEndian(input.frame[..HEADER]);
            Receive(limit, s, input) ==
            if sequence in s.stored then Note(s, sequence)
            else Absorb(Note(s, sequence), sequence, input.frame[HEADER..])
  {
  }

  lemma ReceiveKeepsInvariants(limit: nat, startMs: int, s: Session, input: Input)
    requires BufferInv(s) && TimeInv(startMs, s)
    ensures BufferInv(Receive(limit, s, input)) && TimeInv(startMs, Receive(limit, s, input))
  {
    if IsHandled(limit, s, input) {
      var sequence := LittleEndian(input.frame[..HEADER]);
      HandledIsAbsorbed(limit, s, input);
      SameAudioKeepsInvariants(startMs, s, Note(s, sequence));
      AbsorbKeepsInvariants(startMs, Note(s, sequence), sequence, input.frame[HEADER..]);
    } else {
      IgnoredAddsNothing(limit, s, input);
      SameAudioKeepsInvariants(startMs, s, Receive(limit, s, input));
    }
  }

  lemma {:induction false} ServeKeepsInvariants(limit: nat, startMs: int, stored: map<nat, Chunk>, inputs: seq<Input>)
    ensures BufferInv(Serve(limit, Begin(startMs, stored), inputs))
    ensures TimeInv(startMs, Serve(limit, Begin(startMs, stored), inputs))
  {
    if inputs != [] {
      ServeKeepsInvariants(limit, startMs, stored, inputs[..|inputs| - 1]);
      ReceiveKeepsInvariants(limit, startMs, Serve(limit, Begin(startMs, stored), inputs[..|inputs| - 1]),
                             inputs[|inputs| - 1]);
    }
  }

  // ---- over one connection ----

  predicate Covers(w: Window, p: nat) {
    w.offset <= p < w.offset + |w.audio|
  }

  // Every byte position below n lies in some window.
  ghost predicate CoveredBelow(windows: seq<Window>, n: nat) {
    forall p: nat | p < n :: Heard(windows, p)
  }

  ghost predicate Heard(windows: seq<Window>, p: nat) {
    exists i :: 0 <= i < |windows| && Covers(windows[i], p)
  }

  // The state a connection leaves behind.
  function Connection(limit: nat, startMs: int, stored: map<nat, Chunk>, inputs: seq<Input>): Session {
    Disconnect(Serve(limit, Begin(startMs, stored), inputs))
  }

  lemma {:induction false} ChainCovers(windows: seq<Window>, p: nat) returns (i: nat)
    requires Chained(windows) && windows != []
    requires forall j | 0 <= j < |windows| :: |windows[j].audio| > TAIL
    requires p < windows[|windows| - 1].offset + |windows[|windows| - 1].audio|
    ensures i < |windows| && Covers(windows[i], p)
  {
    var last := |windows| - 1;
    if windows[last].offset <= p {
      i := last;
    } else {
      assert Ends(windows[last - 1], windows[last].offset + TAIL);
      i := ChainCovers(windows[..last], p);
    }
  }

  lemma {:induction false} OffsetsGrow(windows: seq<Window>, i: nat, k: nat)
    requires Chained(windows) && i + 2 <= k < |windows|
    requires forall j | 0 <= j < |windows| - 1 :: |windows[j].audio| >= WINDOW
    ensures windows[i].offset + |windows[i].audio| <= windows[k].offset
    decreases k
  {
    assert Ends(windows[k - 1], windows[k].offset + TAIL);
    if k == i + 2 {
      assert Ends(windows[i], windows[i + 1].offset + TAIL);
    } else {
      OffsetsGrow(windows, i, k - 1);
    }
  }

  ghost predicate WindowsInv(s: Session) {
    && Chained(s.windows)
    && (forall i | 0 <= i < |s.windows| :: Faithful(s.accepted, s.windows[i]) && |s.windows[i].audio| > TAIL)
    && (forall i | 0 <= i < |s.windows| - 1 :: |s.windows[i].audio| >= WINDOW)
  }

  lemma DisconnectKeepsWindows(s: Session)
    requires BufferInv(s)
    ensures WindowsInv(Disconnect(s))
  {
    if Flushes(s) {
      assert Faithful(s.accepted, Window(s.base, s.windowStart, s.buffer));
    }
  }

  lemma SharedTail(accepted: seq<Byte>, w: Window, v: Window)
    requires Faithful(accepted, w) && Faithful(accepted, v) && Ends(w, v.offset + TAIL)
    requires |w.audio| >= TAIL && |v.audio| >= TAIL
    ensures v.audio[..TAIL] == w.audio[|w.audio| - TAIL..]
  {
    var shared := accepted[v.offset..v.offset + TAIL];
    assert v.audio[..TAIL] == shared;
    assert w.audio[|w.audio| - TAIL..] == shared;
  }

  /** Windows are faithful stretches of the accepted audio, consecutive ones share exactly 16,000 bytes. */
  lemma WindowsOverlapByTail(limit: nat, startMs: int, stored: map<nat, Chunk>, inputs: seq<Input>, i: nat)
    requires i < |Connection(limit, startMs, stored, inputs).windows|
    ensures var s := Connection(limit, startMs, stored, inputs);
            && Faithful(s.accepted, s.windows[i])
            && |s.windows[i].audio| > TAIL
            && (i > 0 ==>
                  var previous := s.windows[i - 1].audio;
                  && |previous| >= 64_000
                  && s.windows[i].offset + TAIL == s.windows[i - 1].offset + |previous|
                  && s.windows[i].audio[..TAIL] == previous[|previous| - TAIL..])
  {
    ServeKeepsInvariants(limit, startMs, stored, inputs);
    DisconnectKeepsWindows(Serve(limit, Begin(startMs, stored), inputs));
    var s := Connection(limit, startMs, stored, inputs);
    assert Faithful(s.accepted, s.windows[i]);
    if i > 0 {
      SharedTail(s.accepted, s.windows[i - 1], s.windows[i]);
    }
  }

  /** No byte is handed to recognition more than twice. */
  lemma AtMostTwice(limit: nat, startMs: int, stored: map<nat, Chunk>, inputs: seq<Input>,
                    i: nat, j: nat, k: nat, p: nat)
    requires i < j < k < |Connection(limit, startMs, stored, inputs).windows|
    ensures var w := Connection(limit, startMs, stored, inputs).windows;
            !(Covers(w[i], p) && Covers(w[j], p) && Covers(w[k], p))
  {
    ServeKeepsInvariants(limit, startMs, stored, inputs);
    DisconnectKeepsWindows(Serve(limit, Begin(startMs, stored), inputs));
    OffsetsGrow(Connection(limit, startMs, stored, inputs).windows, i, k);
  }

  lemma CoverageOf(s: Session)
    requires BufferInv(s)
    ensures CoveredBelow(Disconnect(s).windows, |s.accepted|)
            <==> (s.accepted == [] || Flushes(s) || (s.windows != [] && |s.buffer| == TAIL))
  {
    DisconnectKeepsWindows(s);
    var w, n := Disconnect(s).windows, |s.accepted|;
    if s.accepted == [] || Flushes(s) || (s.windows != [] && |s.buffer| == TAIL) {
      forall p: nat | p < n ensures Heard(w, p) {
        var i := ChainCovers(w, p);
      }
    } else {
      var last: nat := n - 1;
      forall i | 0 <= i < |w| ensures !Covers(w[i], last) {
        WindowEndsBefore(s, i);
      }
      assert !Heard(w, last);
    }
  }

  lemma {:induction false} WindowEndsBefore(s: Session, i: nat)
    requires BufferInv(s) && i < |s.windows|
    ensures s.windows[i].offset + |s.windows[i].audio| <= s.base + TAIL
    decreases |s.windows| - i
  {
    if i + 1 < |s.windows| {
      WindowEndsBefore(s, i + 1);
      assert Ends(s.windows[i], s.windows[i + 1].offset + TAIL);
    }
  }

  // ---- what the inputs decide ----

  // The frame passes the length checks.
  predicate Sound(limit: nat, input: Input) {
    HEADER <= |input.frame| <= limit
  }

  predicate AllSound(limit: nat, inputs: seq<Input>) {
    forall i | 0 <= i < |inputs| :: Sound(limit, inputs[i])
  }

  // The last frame before the first unsound one, if there is any, found the meeting.
  predicate FoundLast(limit: nat, inputs: seq<Input>) {
    inputs != [] &&
    if AllSound(limit, inputs) then !inputs[|inputs| - 1].meeting.Missing?
    else FoundLast(limit, inputs[..|inputs| - 1])
  }

  lemma SoundFront(limit: nat, inputs: seq<Input>)
    requires inputs != []
    ensures AllSound(limit, inputs) <==>
            AllSound(limit, inputs[..|inputs| - 1]) && Sound(limit, inputs[|inputs| - 1])
  {
    var front := inputs[..|inputs| - 1];
    if AllSound(limit, front) && Sound(limit, inputs[|inputs| - 1]) {
      forall i | 0 <= i < |inputs| ensures Sound(limit, inputs[i]) {
        assert i < |front| ==> inputs[i] == front[i];
      }
    }
    if AllSound(limit, inputs) {
      forall i | 0 <= i < |front| ensures Sound(limit, front[i]) {
        assert front[i] == inputs[i];
      }
    }
  }

  /** The connection is open as long as all frames are sound; the meeting is known if the last of these found it. */
  lemma {:induction false} OpenAndKnownExactly(limit: nat, startMs: int, stored: map<nat, Chunk>, inputs: seq<Input>)
    ensures var s := Serve(limit, Begin(startMs, stored), inputs);
            (s.open <==> AllSound(limit, inputs)) && (s.known <==> FoundLast(limit, inputs))
  {
    if inputs != [] {
      OpenAndKnownExactly(limit, startMs, stored, inputs[..|inputs| - 1]);
      SoundFront(limit, inputs);
      ReceiveNotes(limit, Serve(limit, Begin(startMs, stored), inputs[..|inputs| - 1]), inputs[|inputs| - 1]);
    }
  }

  lemma ReceiveNotes(limit: nat, s: Session, input: Input)
    ensures Receive(limit, s, input).open <==> s.open && Sound(limit, input)
    ensures Receive(limit, s, input).known <==>
            (if s.open && Sound(limit, input) then !input.meeting.Missing? else s.known)
  {
  }

  // The frame carries chunk n of an active meeting.
  predicate Carries(input: Input, n: nat) {
    |input.frame| >= HEADER && input.meeting.Active? && LittleEndian(input.frame[..HEADER]) == n
  }

  predicate Carried(inputs: seq<Input>, n: nat) {
    exists i :: 0 <= i < |inputs| && Carries(inputs[i], n)
  }

  // The last frame is looked at, and its number neither taken before nor carried by an earlier frame.
  predicate LastIsNew(limit: nat, taken: set<nat>, inputs: seq<Input>)
    requires inputs != []
  {
    var last := inputs[|inputs| - 1];
    AllSound(limit, inputs) && last.meeting.Active? &&
    var n := LittleEndian(last.frame[..HEADER]); n !in taken && !Carried(inputs[..|inputs| - 1], n)
  }

  // The audio of the new frames, in order.
  function NewAudio(limit: nat, taken: set<nat>, inputs: seq<Input>): seq<seq<Byte>> {
    if inputs == [] then []
    else
      NewAudio(limit, taken, inputs[..|inputs| - 1]) +
      (if LastIsNew(limit, taken, inputs) then [inputs[|inputs| - 1].frame[HEADER..]] else [])
  }

  function Joined(parts: seq<seq<Byte>>): seq<Byte> {
    if parts == [] then [] else Joined(parts[..|parts| - 1]) + parts[|parts| - 1]
  }

  lemma CarriedFront(inputs: seq<Input>, n: nat)
    requires inputs != []
    ensures Carried(inputs, n) <==> Carried(inputs[..|inputs| - 1], n) || Carries(inputs[|inputs| - 1], n)
  {
    var front := inputs[..|inputs| - 1];
    if Carried(front, n) {
      var i :| 0 <= i < |front| && Carries(front[i], n);
      assert Carries(inputs[i], n);
    }
    if Carried(inputs, n) {
      var i :| 0 <= i < |inputs| && Carries(inputs[i], n);
      assert i < |front| ==> Carries(front[i], n);
    }
  }

  lemma ReceiveStores(limit: nat, s: Session, input: Input, n: nat)
    requires s.open && Sound(limit, input)
    ensures n in Receive(limit, s, input).stored <==> n in s.stored || Carries(input, n)
  {
  }

  lemma {:induction false} StoredExactly(limit: nat, startMs: int, stored: map<nat, Chunk>, inputs: seq<Input>, n: nat)
    requires AllSound(limit, inputs)
    ensures n in Serve(limit, Begin(startMs, stored), inputs).stored <==> n in stored || Carried(inputs, n)
  {
    if inputs != [] {
      var front := inputs[..|inputs| - 1];
      SoundFront(limit, inputs);
      StoredExactly(limit, startMs, stored, front, n);
      OpenAndKnownExactly(limit, startMs, stored, front);
      ReceiveStores(limit, Serve(limit, Begin(startMs, stored), front), inputs[|inputs| - 1], n);
      CarriedFront(inputs, n);
    }
  }

  // Each new frame is recorded with its size, and its audio accepted.
  ghost predicate Takes(s: Session, parts: seq<seq<Byte>>) {
    && s.accepted == Joined(parts) && |s.recorded| == |parts|
    && forall i | 0 <= i < |parts| :: s.recorded[i].size == |parts[i]|
  }

  lemma AbsorbTakes(s: Session, sequence: nat, audio: seq<Byte>, parts: seq<seq<Byte>>)
    requires Takes(s, parts)
    ensures Takes(Absorb(s, sequence, audio), parts + [audio])
  {
    assert (parts + [audio])[..|parts|] == parts;
  }

  /**
   Exactly the new frames are accepted: the sound ones of an active meeting before the first unsound one,
   whose number was neither stored before nor carried by an earlier one. Each is recorded with its size.
   */
  lemma {:induction false} NewAudioIsAccepted(limit: nat, startMs: int, stored: map<nat, Chunk>, inputs: seq<Input>)
    ensures Takes(Serve(limit, Begin(startMs, stored), inputs), NewAudio(limit, stored.Keys, inputs))
  {
    if inputs != [] {
      var front, last := inputs[..|inputs| - 1], inputs[|inputs| - 1];
      var s := Serve(limit, Begin(startMs, stored), front);
      NewAudioIsAccepted(limit, startMs, stored, front);
      OpenAndKnownExactly(limit, startMs, stored, front);
      SoundFront(limit, inputs);
      if IsHandled(limit, s, last) {
        var sequence := LittleEndian(last.frame[..HEADER]);
        StoredExactly(limit, startMs, stored, front, sequence);
        HandledIsAbsorbed(limit, s, last);
        if sequence !in s.stored {
          AbsorbTakes(Note(s, sequence), sequence, last.frame[HEADER..], NewAudio(limit, stored.Keys, front));
        }
      } else {
        IgnoredAddsNothing(limit, s, last);
      }
      if !LastIsNew(limit, stored.Keys, inputs) {
        assert NewAudio(limit, stored.Keys, inputs) == NewAudio(limit, stored.Keys, front);
      }
    }
  }

  // Chunk n of the table is one of before, or was recorded on this connection.
  predicate FromHere(before: map<nat, Chunk>, s: Session, n: nat) {
    n in s.stored ==> (n in before && s.stored[n] == before[n]) || (n !in before && s.stored[n] in s.recorded)
  }

  lemma ReceiveKeepsStored(limit: nat, before: map<nat, Chunk>, s: Session, input: Input, n: nat)
    requires FromHere(before, s, n) && before.Keys <= s.stored.Keys
    ensures FromHere(before, Receive(limit, s, input), n)
  {
    if IsHandled(limit, s, input) {
      var sequence := LittleEndian(input.frame[..HEADER]);
      HandledIsAbsorbed(limit, s, input);
      if sequence !in s.stored {
        AbsorbStores(Note(s, sequence), sequence, input.frame[HEADER..]);
      }
    }
  }

  lemma AbsorbStores(s: Session, sequence: nat, audio: seq<Byte>)
    ensures var after := Absorb(s, sequence, audio);
            && s.recorded <= after.recorded && |after.recorded| == |s.recorded| + 1
            && after.stored == s.stored[sequence := after.recorded[|s.recorded|]]
  {
  }

  /** Stored chunks are never overwritten, and the new ones are those recorded. */
  lemma {:induction false} StoredIsRecorded(limit: nat, startMs: int, stored: map<nat, Chunk>, inputs: seq<Input>,
                                            n: nat)
    ensures FromHere(stored, Serve(limit, Begin(startMs, stored), inputs), n)
    ensures stored.Keys <= Serve(limit, Begin(startMs, stored), inputs).stored.Keys
  {
    StoredGrows(limit, Begin(startMs, stored), inputs);
    if inputs != [] {
      StoredIsRecorded(limit, startMs, stored, inputs[..|inputs| - 1], n);
      ReceiveKeepsStored(limit, stored, Serve(limit, Begin(startMs, stored), inputs[..|inputs| - 1]),
                         inputs[|inputs| - 1], n);
    }
  }

  /**
   When all frames are sound and the last one found the meeting, every byte of the new frames has been
   handed to recognition once the client disconnects, exactly unless they hold between 1 and 16,000 bytes.
   */
  lemma EveryByteIsHeard(limit: nat, startMs: int, stored: map<nat, Chunk>, inputs: seq<Input>)
    requires AllSound(limit, inputs) && (inputs != [] ==> !inputs[|inputs| - 1].meeting.Missing?)
    ensures var s, audio := Connection(limit, startMs, stored, inputs), Joined(NewAudio(limit, stored.Keys, inputs));
            s.accepted == audio && (CoveredBelow(s.windows, |audio|) <==> (audio == [] || |audio| > 16_000))
  {
    ServeKeepsInvariants(limit, startMs, stored, inputs);
    NewAudioIsAccepted(limit, startMs, stored, inputs);
    OpenAndKnownExactly(limit, startMs, stored, inputs);
    CoverageOf(Serve(limit, Begin(startMs, stored), inputs));
  }

  /**
   A connection closed for a bad frame, or whose meeting was deleted meanwhile, is not flushed:
   it has heard everything only if no audio followed its last window.
   */
  lemma UnflushedLosesTheRest(limit: nat, startMs: int, stored: map<nat, Chunk>, inputs: seq<Input>)
    requires !AllSound(limit, inputs) || !FoundLast(limit, inputs)
    ensures var s := Connection(limit, startMs, stored, inputs);
            && s.accepted == Joined(NewAudio(limit, stored.Keys, inputs))
            && (CoveredBelow(s.windows, |s.accepted|)
                <==> (s.accepted == [] || (s.windows != [] && |s.buffer| == TAIL)))
  {
    ServeKeepsInvariants(limit, startMs, stored, inputs);
    NewAudioIsAccepted(limit, startMs, stored, inputs);
    OpenAndKnownExactly(limit, startMs, stored, inputs);
    CoverageOf(Serve(limit, Begin(startMs, stored), inputs));
  }

  lemma DisconnectKeepsLabels(startMs: int, s: Session)
    requires TimeInv(startMs, s)
    ensures var end := Disconnect(s);
            forall i | 0 <= i < |end.windows| ::
              0 <= end.windows[i].offset - MS * (end.windows[i].startMs - startMs) <= (MS - 1) * i
  {
    var end := Disconnect(s);
    forall i | 0 <= i < |end.windows|
      ensures 0 <= end.windows[i].offset - MS * (end.windows[i].startMs - startMs) <= (MS - 1) * i
    {
      assert Lags(startMs, i, end.windows[i].offset, end.windows[i].startMs);
    }
  }

  lemma {:induction false} ZeroNumber(n: nat)
    ensures LittleEndian(seq(n, i => 0 as Byte)) == 0
  {
    if n > 0 {
      ZeroNumber(n - 1);
      assert seq(n, i => 0 as Byte)[1..] == seq(n - 1, i => 0 as Byte);
    }
  }

  /** So it happens: a first chunk of any size below two seconds is lost to a frame without a header. */
  lemma LostAudioWitness(limit: nat, startMs: int, audio: seq<Byte>) returns (inputs: seq<Input>)
    requires 0 < |audio| < WINDOW && HEADER + |audio| <= limit
    ensures Connection(limit, startMs, map[], inputs).accepted == audio
    ensures !CoveredBelow(Connection(limit, startMs, map[], inputs).windows, |audio|)
  {
    var header := seq(HEADER, i => 0 as Byte);
    ZeroNumber(HEADER);
    var first, bad := Input(header + audio, Active), Input([], Active);
    inputs := [first, bad];
    assert inputs[..1] == [first] && [first][..0] == [];
    var start := Begin(startMs, map[]);
    assert first.frame[..HEADER] == header && first.frame[HEADER..] == audio;
    assert [] + audio == audio;
    assert Serve(limit, start, []) == start;
    assert Serve(limit, start, [first]) == Receive(limit, start, first);
    assert Receive(limit, start, first).accepted == audio && Receive(limit, start, first).windows == [];
    assert !Sound(limit, inputs[1]);
    UnflushedLosesTheRest(limit, startMs, map[], inputs);
  }

  /**
   The timeline of one connection, flush included: chunk intervals never overlap and leave gaps of
   at most 1 ms, a window's start lags its true offset by less than 1 ms per window before it, and
   the buffer stays below two seconds.
   */
  lemma TimelineIsTight(limit: nat, startMs: int, stored: map<nat, Chunk>, inputs: seq<Input>)
    ensures var s := Connection(limit, startMs, stored, inputs);
            && |s.buffer| < 64_000
            && (forall i | 0 < i < |s.recorded| ::
                  s.recorded[i - 1].end <= s.recorded[i].start <= s.recorded[i - 1].end + 1)
            && (forall i | 0 <= i < |s.windows| ::
                  0 <= s.windows[i].offset - MS * (s.windows[i].startMs - startMs) <= (MS - 1) * i)
  {
    ServeKeepsInvariants(limit, startMs, stored, inputs);
    DisconnectKeepsLabels(startMs, Serve(limit, Begin(startMs, stored), inputs));
  }

  lemma {:induction false} StoredGrows(limit: nat, s: Session, inputs: seq<Input>)
    ensures s.stored.Keys <= Serve(limit, s, inputs).stored.Keys
  {
    if inputs != [] {
      StoredGrows(limit, s, inputs[..|inputs| - 1]);
    }
  }

  /** A sequence number already stored, now or earlier, never adds audio, chunks or windows again. */
  lemma ReplayAddsNothing(limit: nat, s: Session, inputs: seq<Input>, replay: Input)
    requires HEADER <= |replay.frame| && LittleEndian(replay.frame[..HEADER]) in s.stored
    ensures var before := Serve(limit, s, inputs);
            var after := Receive(limit, before, replay);
            && after.accepted == before.accepted && after.buffer == before.buffer
            && after.recorded == before.recorded && after.windows == before.windows
            && after.stored == before.stored && after.windowStart == before.windowStart
  {
    StoredGrows(limit, s, inputs);
  }

  // ---- gaps ----

  // The sequence numbers of the frames that pass the checks, in order.
  function Handled(limit: nat, s: Session, inputs: seq<Input>): seq<nat> {
    if inputs == [] then []
    else
      var front, last := inputs[..|inputs| - 1], inputs[|inputs| - 1];
      if IsHandled(limit, Serve(limit, s, front), last)
      then Handled(limit, s, front) + [LittleEndian(last.frame[..HEADER])] else Handled(limit, s, front)
  }

  function Next(numbers: seq<nat>): nat {
    if numbers == [] then 0 else numbers[|numbers| - 1] + 1
  }

  // Where a number does not follow the one before it.
  function Jumps(numbers: seq<nat>): seq<Gap> {
    if numbers == [] then []
    else
      var front, last := numbers[..|numbers| - 1], numbers[|numbers| - 1];
      Jumps(front) + (if last != Next(front) then [Gap(Next(front), last)] else [])
  }

  lemma JumpsAppend(numbers: seq<nat>, number: nat)
    ensures Jumps(numbers + [number]) ==
            Jumps(numbers) + (if number != Next(numbers) then [Gap(Next(numbers), number)] else [])
  {
    assert (numbers + [number])[..|numbers|] == numbers;
  }

  lemma {:induction false} GapsAreJumps(limit: nat, startMs: int, stored: map<nat, Chunk>, inputs: seq<Input>)
    ensures var s, numbers := Serve(limit, Begin(startMs, stored), inputs),
                              Handled(limit, Begin(startMs, stored), inputs);
            s.gaps == Jumps(numbers) && s.expected == Next(numbers)
  {
    if inputs != [] {
      var front, last := inputs[..|inputs| - 1], inputs[|inputs| - 1];
      GapsAreJumps(limit, startMs, stored, front);
      if IsHandled(limit, Serve(limit, Begin(startMs, stored), front), last) {
        JumpsAppend(Handled(limit, Begin(startMs, stored), front), LittleEndian(last.frame[..HEADER]));
      }
    }
  }

  predicate CountsUp(numbers: seq<nat>) {
    forall i | 0 <= i < |numbers| :: numbers[i] == i
  }

  lemma {:induction false} NoJumpsExactly(numbers: seq<nat>)
    ensures Jumps(numbers) == [] <==> CountsUp(numbers)
  {
    if numbers != [] {
      var front := numbers[..|numbers| - 1];
      NoJumpsExactly(front);
      if CountsUp(front) {
        assert Next(front) == |front|;
        assert CountsUp(numbers) <==> numbers[|front|] == |front|;
      } else {
        var i :| 0 <= i < |front| && front[i] != i;
        assert numbers[i] != i;
      }
    }
  }

  /** No gap is reported exactly when the frames that pass the checks are numbered 0, 1, 2, ... */
  lemma NoGapExactly(limit: nat, startMs: int, stored: map<nat, Chunk>, inputs: seq<Input>)
    ensures Connection(limit, startMs, stored, inputs).gaps == [] <==>
            CountsUp(Handled(limit, Begin(startMs, stored), inputs))
  {
    GapsAreJumps(limit, startMs, stored, inputs);
    NoJumpsExactly(Handled(limit, Begin(startMs, stored), inputs));
  }

  lemma AbsorbRecords(s: Session, sequence: nat, audio: seq<Byte>)
    ensures |Absorb(s, sequence, audio).recorded| == |s.recorded| + 1
    ensures Absorb(s, sequence, audio).stored.Keys == s.stored.Keys + {sequence}
  {
  }

  /** On a meeting without stored chunks, a connection without gaps has recorded every such frame. */
  lemma {:induction false} NoGapMissesNothing(limit: nat, startMs: int, inputs: seq<Input>, numbers: seq<nat>)
    requires numbers == Handled(limit, Begin(startMs, map[]), inputs) && CountsUp(numbers)
    ensures var s := Serve(limit, Begin(startMs, map[]), inputs);
            |s.recorded| == |numbers| && forall n | n in s.stored :: n < |numbers|
  {
    if inputs != [] {
      var front := inputs[..|inputs| - 1];
      var before := Handled(limit, Begin(startMs, map[]), front);
      assert forall i | 0 <= i < |before| :: before[i] == numbers[i];
      NoGapMissesNothing(limit, startMs, front, before);
      var s, last := Serve(limit, Begin(startMs, map[]), front), inputs[|inputs| - 1];
      if IsHandled(limit, s, last) {
        assert numbers[|before|] == LittleEndian(last.frame[..HEADER]) == |before|;
        AbsorbRecords(Note(s, |before|), |before|, last.frame[HEADER..]);
      }
    }
  }
}
