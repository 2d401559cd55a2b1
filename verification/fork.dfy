/**
  The `--fork` protocol: a child process links, its parent relays its streams
  and returns the status the child reports. Every step of either process, of
  the relay threads and of programs the child starts is one transition.
 */
module Fork {
  import opened Bytes
  import opened Results

  datatype Stream = StdOut | StdErr

  /** Which of the parent's streams are relayed, and whether they are one file. */
  datatype Config = Config(relayOut: bool, relayErr: bool, shared: bool)

  predicate ValidConfig(cfg: Config)
  {
    cfg.shared ==> cfg.relayOut && cfg.relayErr
  }

  predicate Relayed(cfg: Config, stream: Stream)
  {
    if stream.StdOut? then cfg.relayOut else cfg.relayErr
  }

  /** The channel a stream's bytes take: one for both when they are one file. */
  function ChannelOf(cfg: Config, stream: Stream): Stream
  {
    if cfg.shared then StdOut else stream
  }

  /** A byte in a channel: the stream it was written to, and whether the child itself wrote it. */
  datatype Item = Item(stream: Stream, own: bool, byte: Byte)

  /**
    A socket and the relay that empties it. `pushed` is everything that ever
    entered it, in order, which no process holds.
   */
  datatype Channel = Channel(queue: seq<Item>, inFlight: seq<Item>, delivered: seq<Item>, pushed: seq<Item>,
                             shut: bool, closed: bool, done: bool)

  /** How far the first call of `notify` got: flags swapped, flushed, stdout shut, stderr shut, status sent. */
  datatype Notify = NotCalled | Called(stage: nat, code: Byte)

  datatype Wait = Exited(code: int) | Signalled(signal: nat) | NoStatus | WaitFailed

  datatype Parent = Reading | Joining(reported: Option<Byte>) | Returned(reported: Option<Byte>, code: int)

  /** `buffer` is the child's stdout buffer; `printed` and `before` (at `notify`) are what the child printed, by stream. */
  datatype State = State(
    out: Channel, err: Channel,
    buffer: seq<Byte>,
    printedOut: seq<Byte>, printedErr: seq<Byte>,
    beforeOut: seq<Byte>, beforeErr: seq<Byte>,
    notify: Notify,
    status: seq<Byte>,
    exited: Option<Wait>,
    parent: Parent)

  function Get(s: State, c: Stream): Channel
  {
    if c.StdOut? then s.out else s.err
  }

  function Set(s: State, c: Stream, channel: Channel): State
  {
    if c.StdOut? then s.(out := channel) else s.(err := channel)
  }

  function Items(stream: Stream, own: bool, bytes: seq<Byte>): (r: seq<Item>)
    ensures |r| == |bytes|
  {
    seq(|bytes|, i requires 0 <= i < |bytes| => Item(stream, own, bytes[i]))
  }

  /** A write to a stream: it enters the channel unless the stream is not relayed or the channel is shut. */
  function Written(cfg: Config, s: State, stream: Stream, own: bool, bytes: seq<Byte>): State
  {
    var c := Get(s, ChannelOf(cfg, stream));
    if !Relayed(cfg, stream) || c.shut then s
    else Set(s, ChannelOf(cfg, stream),
             c.(queue := c.queue + Items(stream, own, bytes), pushed := c.pushed + Items(stream, own, bytes)))
  }

  /** `exit_code`. */
  function ExitCode(w: Wait): int
  {
    match w
    case Exited(code) => code % 256
    case Signalled(signal) => if signal + 128 <= 255 then signal + 128 else 1
    case NoStatus => 1
    case WaitFailed => 1
  }

  datatype Step =
    | PrintOut(bytes: seq<Byte>)
    | PrintErr(bytes: seq<Byte>)
    | Drain(count: nat)
    | Subprocess(stream: Stream, bytes: seq<Byte>)
    | CallNotify(code: Byte)
    | FlushAll
    | ShutOut
    | ShutErr
    | SendStatus
    | Exit(wait: Wait)
    | Close(channel: Stream)
    | RelayRead(channel: Stream, count: nat)
    | RelayWrite(channel: Stream)
    | RelayEnd(channel: Stream)
    | ParentRead
    | ParentEof
    | ParentReturn

  /** Whether a step can be taken. */
  predicate Enabled(cfg: Config, s: State, step: Step)
  {
    match step
    case PrintOut(_) => s.exited.None?
    case PrintErr(_) => s.exited.None?
    case Drain(count) => s.exited.None? && count <= |s.buffer|
    case Subprocess(stream, _) => !Get(s, ChannelOf(cfg, stream)).closed
    case CallNotify(_) => s.exited.None?
    case FlushAll => s.exited.None? && s.notify.Called? && s.notify.stage == 0
    case ShutOut => s.exited.None? && s.notify.Called? && s.notify.stage == 1
    case ShutErr => s.exited.None? && s.notify.Called? && s.notify.stage == 2
    case SendStatus => s.exited.None? && s.notify.Called? && s.notify.stage == 3
    case Exit(_) => s.exited.None?
    case Close(c) => s.exited.Some?
    case RelayRead(c, count) =>
      !Get(s, c).done && Get(s, c).inFlight == [] && 0 < count <= |Get(s, c).queue|
    case RelayWrite(c) => Get(s, c).inFlight != []
    case RelayEnd(c) =>
      !Get(s, c).done && Get(s, c).inFlight == [] && Get(s, c).queue == [] && (Get(s, c).shut || Get(s, c).closed)
    case ParentRead => s.parent.Reading? && s.status != []
    case ParentEof => s.parent.Reading? && s.status == [] && s.exited.Some?
    case ParentReturn =>
      s.parent.Joining? && (forall stream :: Relayed(cfg, stream) ==> Get(s, ChannelOf(cfg, stream)).done)
      && (s.parent.reported.Some? || s.exited.Some?)
  }

  function Shut(s: State, cfg: Config, stream: Stream): State
  {
    if !Relayed(cfg, stream) then s
    else Set(s, ChannelOf(cfg, stream), Get(s, ChannelOf(cfg, stream)).(shut := true))
  }

  /** The state after a step, the same one if the step cannot be taken. */
  function Take(cfg: Config, s: State, step: Step): State
  {
    if !Enabled(cfg, s, step) then s
    else
      match step
      case PrintOut(bytes) => s.(buffer := s.buffer + bytes, printedOut := s.printedOut + bytes)
      case PrintErr(bytes) => Written(cfg, s, StdErr, true, bytes).(printedErr := s.printedErr + bytes)
      case Drain(count) => Written(cfg, s, StdOut, true, s.buffer[..count]).(buffer := s.buffer[count..])
      case Subprocess(stream, bytes) => Written(cfg, s, stream, false, bytes)
      case CallNotify(code) =>
        if s.notify.Called? then s
        else s.(notify := Called(0, code), beforeOut := s.printedOut, beforeErr := s.printedErr)
      case FlushAll => Written(cfg, s, StdOut, true, s.buffer).(buffer := [], notify := Called(1, s.notify.code))
      case ShutOut => Shut(s, cfg, StdOut).(notify := Called(2, s.notify.code))
      case ShutErr => Shut(s, cfg, StdErr).(notify := Called(3, s.notify.code))
      case SendStatus => s.(status := s.status + [s.notify.code], notify := Called(4, s.notify.code))
      case Exit(wait) => s.(exited := Some(wait))
      case Close(c) => Set(s, c, Get(s, c).(closed := true))
      case RelayRead(c, count) =>
        var ch := Get(s, c);
        Set(s, c, ch.(inFlight := ch.queue[..count], queue := ch.queue[count..]))
      case RelayWrite(c) =>
        var ch := Get(s, c);
        Set(s, c, ch.(delivered := ch.delivered + ch.inFlight, inFlight := []))
      case RelayEnd(c) => Set(s, c, Get(s, c).(done := true))
      case ParentRead => s.(parent := Joining(Some(s.status[0])))
      case ParentEof => s.(parent := Joining(None))
      case ParentReturn =>
        s.(parent := Returned(s.parent.reported,
             if s.parent.reported.Some? then s.parent.reported.value else ExitCode(s.exited.value)))
  }

  function NewChannel(): Channel
  {
    Channel([], [], [], [], false, false, false)
  }

  function Init(): State
  {
    State(NewChannel(), NewChannel(), [], [], [], [], [], NotCalled, [], None, Reading)
  }

  /** A run: states from the first on, each a step from the one before. */
  ghost predicate Run(cfg: Config, states: seq<State>, steps: seq<Step>)
  {
    && |states| == |steps| + 1 && states[0] == Init()
    && forall i :: 0 <= i < |steps| ==> Enabled(cfg, states[i], steps[i]) && states[i + 1] == Take(cfg, states[i], steps[i])
  }

  // ---- What the child itself wrote to a stream ----

  function Own(items: seq<Item>, stream: Stream): seq<Byte>
    decreases |items|
  {
    if items == [] then []
    else
      var last := items[|items| - 1];
      Own(items[..|items| - 1], stream) + (if last.own && last.stream == stream then [last.byte] else [])
  }

  lemma {:induction false} OwnJoin(a: seq<Item>, b: seq<Item>, stream: Stream)
    ensures Own(a + b, stream) == Own(a, stream) + Own(b, stream)
    decreases |b|
  {
    if b == [] {
      assert a + b == a;
    } else {
      assert (a + b)[..|a + b| - 1] == a + b[..|b| - 1];
      OwnJoin(a, b[..|b| - 1], stream);
    }
  }

  lemma {:induction false} OwnItems(stream: Stream, own: bool, bytes: seq<Byte>, other: Stream)
    ensures Own(Items(stream, own, bytes), other) == if own && stream == other then bytes else []
    decreases |bytes|
  {
    if bytes != [] {
      assert Items(stream, own, bytes)[..|bytes| - 1] == Items(stream, own, bytes[..|bytes| - 1]);
      OwnItems(stream, own, bytes[..|bytes| - 1], other);
    }
  }

  // ---- The invariant ----

  /** Nothing is lost in a channel, and its relay ends only when it is empty and no more can come. */
  predicate ChannelKeeps(ch: Channel)
  {
    && ch.delivered + ch.inFlight + ch.queue == ch.pushed
    && (ch.done ==> ch.inFlight == [] && ch.queue == [])
    && (ch.done ==> ch.shut || ch.closed)
  }

  /** `notify` had got to `stage`. */
  predicate Past(s: State, stage: nat)
  {
    s.notify.Called? && s.notify.stage >= stage
  }

  predicate StagesFit(cfg: Config, s: State)
  {
    && (s.notify.Called? ==> s.notify.stage <= 4)
    && (cfg.relayOut ==> (Past(s, 2) ==> Get(s, ChannelOf(cfg, StdOut)).shut))
    && (cfg.relayErr ==> (Past(s, 3) ==> Get(s, ChannelOf(cfg, StdErr)).shut))
    && (Get(s, ChannelOf(cfg, StdOut)).shut ==> Past(s, 2))
    && (Get(s, ChannelOf(cfg, StdErr)).shut ==> Past(s, 2))
    && s.status == (if Past(s, 4) then [s.notify.code] else [])
  }

  /** Of stdout: all is in the channel or the buffer while the channel is open; what was printed before `notify` is there once flushed. */
  predicate OutFits(own: seq<Byte>, shut: bool, buffer: seq<Byte>, printed: seq<Byte>, earlier: seq<Byte>, called: bool, flushed: bool)
  {
    && (!shut ==> own + buffer == printed)
    && (called ==> earlier <= printed)
    && (flushed ==> earlier <= own)
  }

  /** Of stderr, which has no buffer. */
  predicate ErrFits(own: seq<Byte>, shut: bool, printed: seq<Byte>, earlier: seq<Byte>, called: bool)
  {
    && (!shut ==> own == printed)
    && (called ==> earlier <= own)
  }

  /** What the child itself put into a stream's channel. */
  function Sent(cfg: Config, s: State, stream: Stream): seq<Byte>
  {
    Own(Get(s, ChannelOf(cfg, stream)).pushed, stream)
  }

  predicate IsShut(cfg: Config, s: State, stream: Stream)
  {
    Get(s, ChannelOf(cfg, stream)).shut
  }

  predicate PrintedFits(cfg: Config, s: State)
  {
    && (cfg.relayOut ==>
          OutFits(Sent(cfg, s, StdOut), IsShut(cfg, s, StdOut), s.buffer, s.printedOut, s.beforeOut, Past(s, 0), Past(s, 1)))
    && (cfg.relayErr ==>
          ErrFits(Sent(cfg, s, StdErr), IsShut(cfg, s, StdErr), s.printedErr, s.beforeErr, Past(s, 0)))
  }

  predicate ParentFits(cfg: Config, s: State)
  {
    match s.parent
    case Reading => true
    case Joining(reported) =>
      if reported.Some? then Past(s, 4) && reported.value == s.notify.code else s.exited.Some? && !Past(s, 4)
    case Returned(reported, code) =>
      && (forall stream :: Relayed(cfg, stream) ==> Get(s, ChannelOf(cfg, stream)).done)
      && if reported.Some? then Past(s, 4) && reported.value == s.notify.code == code
         else s.exited.Some? && !Past(s, 4) && code == ExitCode(s.exited.value)
  }

  predicate ClosedFits(s: State)
  {
    s.out.closed || s.err.closed ==> s.exited.Some?
  }

  ghost predicate Inv(cfg: Config, s: State)
  {
    && ChannelKeeps(s.out) && ChannelKeeps(s.err)
    && StagesFit(cfg, s) && PrintedFits(cfg, s) && ParentFits(cfg, s) && ClosedFits(s)
  }

  lemma InitInv(cfg: Config)
    ensures Inv(cfg, Init())
  {
  }

  /** A write keeps the channels, and adds exactly its bytes to what the stream received. */
  lemma WrittenKeeps(cfg: Config, s: State, stream: Stream, own: bool, bytes: seq<Byte>)
    requires Inv(cfg, s) && !Get(s, ChannelOf(cfg, stream)).closed
    ensures var s' := Written(cfg, s, stream, own, bytes);
      && ChannelKeeps(s'.out) && ChannelKeeps(s'.err)
      && StagesFit(cfg, s') && ClosedFits(s')
      && s'.parent == s.parent && s'.buffer == s.buffer && s'.printedOut == s.printedOut && s'.printedErr == s.printedErr
      && s'.beforeOut == s.beforeOut && s'.beforeErr == s.beforeErr && s'.exited == s.exited && s'.notify == s.notify
      && s'.out.done == s.out.done && s'.err.done == s.err.done
      && IsShut(cfg, s', StdOut) == IsShut(cfg, s, StdOut) && IsShut(cfg, s', StdErr) == IsShut(cfg, s, StdErr)
  {
    var c := Get(s, ChannelOf(cfg, stream));
    var items := Items(stream, own, bytes);
    assert c.delivered + c.inFlight + (c.queue + items) == c.delivered + c.inFlight + c.queue + items;
    hide Items;
  }

  /** What a write adds to what the child itself wrote to a stream. */
  lemma WrittenOwn(cfg: Config, s: State, stream: Stream, own: bool, bytes: seq<Byte>, other: Stream)
    requires Relayed(cfg, other) && ValidConfig(cfg)
    ensures var (c, s') := (Get(s, ChannelOf(cfg, other)), Written(cfg, s, stream, own, bytes));
      Sent(cfg, s', other) == Sent(cfg, s, other) + (if own && stream == other && !c.shut then bytes else [])
  {
    var c := Get(s, ChannelOf(cfg, other));
    OwnJoin(c.pushed, Items(stream, own, bytes), other);
    OwnItems(stream, own, bytes, other);
    hide Own, Items;
  }

  /** More of the buffer in the channel, if that is open. */
  lemma OutDrains(own: seq<Byte>, shut: bool, buffer: seq<Byte>, count: nat, printed: seq<Byte>, earlier: seq<Byte>, called: bool, flushed: bool)
    requires OutFits(own, shut, buffer, printed, earlier, called, flushed) && count <= |buffer|
    ensures OutFits(own + (if !shut then buffer[..count] else []), shut, buffer[count..], printed, earlier, called, flushed)
  {
    var bytes := if !shut then buffer[..count] else [];
    if !shut { assert own + buffer[..count] + buffer[count..] == own + buffer; }
  }

  lemma ErrPrints(own: seq<Byte>, shut: bool, bytes: seq<Byte>, printed: seq<Byte>, earlier: seq<Byte>, called: bool)
    requires ErrFits(own, shut, printed, earlier, called)
    ensures ErrFits(own + (if !shut then bytes else []), shut, printed + bytes, earlier, called)
  {
  }

  lemma PrintOutKeeps(cfg: Config, s: State, bytes: seq<Byte>)
    requires ValidConfig(cfg) && Inv(cfg, s) && Enabled(cfg, s, PrintOut(bytes))
    ensures Inv(cfg, Take(cfg, s, PrintOut(bytes)))
  {
    hide Own, ChannelKeeps;
    var own := Sent(cfg, s, StdOut);
    assert own + (s.buffer + bytes) == own + s.buffer + bytes;
  }

  /** Everything but what was printed is as a write left it. */
  lemma RestSame(cfg: Config, s: State, w: State, s': State)
    requires Inv(cfg, s)
    requires ChannelKeeps(w.out) && ChannelKeeps(w.err) && StagesFit(cfg, w) && ClosedFits(w)
    requires w.parent == s.parent && w.exited == s.exited && w.notify == s.notify && w.out.done == s.out.done && w.err.done == s.err.done
    requires s' == w.(buffer := s'.buffer, printedOut := s'.printedOut, printedErr := s'.printedErr)
    ensures ChannelKeeps(s'.out) && ChannelKeeps(s'.err) && StagesFit(cfg, s') && ClosedFits(s') && ParentFits(cfg, s')
  {
    hide Own, ChannelKeeps;
  }

  lemma IsInv(cfg: Config, s: State)
    requires ChannelKeeps(s.out) && ChannelKeeps(s.err) && StagesFit(cfg, s) && PrintedFits(cfg, s) && ParentFits(cfg, s) && ClosedFits(s)
    ensures Inv(cfg, s)
  {
  }

  lemma OpenYet(cfg: Config, s: State, step: Step, stream: Stream)
    requires Inv(cfg, s) && Enabled(cfg, s, step) && (step.PrintErr? || step.Drain? || step.FlushAll?)
    ensures !Get(s, ChannelOf(cfg, stream)).closed
  {
    hide Own, ChannelKeeps;
  }

  lemma PrintErrIs(cfg: Config, s: State, bytes: seq<Byte>)
    requires Enabled(cfg, s, PrintErr(bytes))
    ensures Take(cfg, s, PrintErr(bytes)) == Written(cfg, s, StdErr, true, bytes).(printedErr := s.printedErr + bytes)
  {
    hide Written;
  }

  lemma PrintErrPrinted(cfg: Config, s: State, bytes: seq<Byte>)
    requires ValidConfig(cfg) && Inv(cfg, s) && Enabled(cfg, s, PrintErr(bytes))
    ensures PrintedFits(cfg, Take(cfg, s, PrintErr(bytes)))
  {
    OpenYet(cfg, s, PrintErr(bytes), StdErr);
    WrittenKeeps(cfg, s, StdErr, true, bytes);
    PrintErrIs(cfg, s, bytes);
    assert PrintedFits(cfg, s);
    hide Own, Sent, IsShut, OutFits, ErrFits, ChannelKeeps, Written, Inv, StagesFit, ParentFits, ClosedFits, Take, Enabled;
    if cfg.relayOut { WrittenOwn(cfg, s, StdErr, true, bytes, StdOut); }
    if cfg.relayErr {
      WrittenOwn(cfg, s, StdErr, true, bytes, StdErr);
      ErrPrints(Sent(cfg, s, StdErr), IsShut(cfg, s, StdErr), bytes, s.printedErr, s.beforeErr, Past(s, 0));
    }
  }

  lemma PrintErrKeeps(cfg: Config, s: State, bytes: seq<Byte>)
    requires ValidConfig(cfg) && Inv(cfg, s) && Enabled(cfg, s, PrintErr(bytes))
    ensures Inv(cfg, Take(cfg, s, PrintErr(bytes)))
  {
    hide *;
    var (w, s') := (Written(cfg, s, StdErr, true, bytes), Take(cfg, s, PrintErr(bytes)));
    OpenYet(cfg, s, PrintErr(bytes), StdErr);
    WrittenKeeps(cfg, s, StdErr, true, bytes);
    PrintErrPrinted(cfg, s, bytes);
    PrintErrIs(cfg, s, bytes);
    RestSame(cfg, s, w, s');
    IsInv(cfg, s');
  }

  lemma SubprocessIs(cfg: Config, s: State, stream: Stream, bytes: seq<Byte>)
    requires Enabled(cfg, s, Subprocess(stream, bytes))
    ensures Take(cfg, s, Subprocess(stream, bytes)) == Written(cfg, s, stream, false, bytes)
    ensures !Get(s, ChannelOf(cfg, stream)).closed
  {
    hide Written;
  }

  lemma SubprocessPrinted(cfg: Config, s: State, stream: Stream, bytes: seq<Byte>)
    requires ValidConfig(cfg) && Inv(cfg, s) && !Get(s, ChannelOf(cfg, stream)).closed
    ensures PrintedFits(cfg, Written(cfg, s, stream, false, bytes))
  {
    WrittenKeeps(cfg, s, stream, false, bytes);
    assert PrintedFits(cfg, s);
    hide Own, Sent, IsShut, OutFits, ErrFits, ChannelKeeps, Written, Inv, StagesFit, ParentFits, ClosedFits;
    if cfg.relayOut { WrittenOwn(cfg, s, stream, false, bytes, StdOut); }
    if cfg.relayErr { WrittenOwn(cfg, s, stream, false, bytes, StdErr); }
  }

  lemma SubprocessKeeps(cfg: Config, s: State, stream: Stream, bytes: seq<Byte>)
    requires ValidConfig(cfg) && Inv(cfg, s) && Enabled(cfg, s, Subprocess(stream, bytes))
    ensures Inv(cfg, Take(cfg, s, Subprocess(stream, bytes)))
  {
    hide *;
    var s' := Written(cfg, s, stream, false, bytes);
    SubprocessIs(cfg, s, stream, bytes);
    WrittenKeeps(cfg, s, stream, false, bytes);
    SubprocessPrinted(cfg, s, stream, bytes);
    RestSame(cfg, s, s', s');
    IsInv(cfg, s');
  }

  lemma DrainIs(cfg: Config, s: State, count: nat)
    requires Enabled(cfg, s, Drain(count))
    ensures count <= |s.buffer|
    ensures Take(cfg, s, Drain(count)) == Written(cfg, s, StdOut, true, s.buffer[..count]).(buffer := s.buffer[count..])
  {
    hide Written;
  }

  lemma DrainPrinted(cfg: Config, s: State, count: nat)
    requires ValidConfig(cfg) && Inv(cfg, s) && Enabled(cfg, s, Drain(count))
    ensures PrintedFits(cfg, Take(cfg, s, Drain(count)))
  {
    OpenYet(cfg, s, Drain(count), StdOut);
    DrainIs(cfg, s, count);
    var bytes := s.buffer[..count];
    WrittenKeeps(cfg, s, StdOut, true, bytes);
    assert PrintedFits(cfg, s);
    hide Own, Sent, IsShut, OutFits, ErrFits, ChannelKeeps, Written, Inv, StagesFit, ParentFits, ClosedFits, Take, Enabled;
    if cfg.relayErr { WrittenOwn(cfg, s, StdOut, true, bytes, StdErr); }
    if cfg.relayOut {
      WrittenOwn(cfg, s, StdOut, true, bytes, StdOut);
      OutDrains(Sent(cfg, s, StdOut), IsShut(cfg, s, StdOut), s.buffer, count, s.printedOut, s.beforeOut, Past(s, 0), Past(s, 1));
    }
  }

  lemma DrainKeeps(cfg: Config, s: State, count: nat)
    requires ValidConfig(cfg) && Inv(cfg, s) && Enabled(cfg, s, Drain(count))
    ensures Inv(cfg, Take(cfg, s, Drain(count)))
  {
    hide *;
    DrainIs(cfg, s, count);
    var (w, s') := (Written(cfg, s, StdOut, true, s.buffer[..count]), Take(cfg, s, Drain(count)));
    OpenYet(cfg, s, Drain(count), StdOut);
    WrittenKeeps(cfg, s, StdOut, true, s.buffer[..count]);
    DrainPrinted(cfg, s, count);
    RestSame(cfg, s, w, s');
    IsInv(cfg, s');
  }

  lemma FlushIs(cfg: Config, s: State)
    requires Enabled(cfg, s, FlushAll)
    ensures s.notify.Called? && s.notify.stage == 0
    ensures Take(cfg, s, FlushAll) == Written(cfg, s, StdOut, true, s.buffer).(buffer := [], notify := Called(1, s.notify.code))
  {
    hide Written;
  }

  lemma FlushRest(cfg: Config, s: State, w: State, s': State)
    requires Inv(cfg, s) && s.notify.Called? && s.notify.stage == 0
    requires ChannelKeeps(w.out) && ChannelKeeps(w.err) && StagesFit(cfg, w) && ClosedFits(w)
    requires w.parent == s.parent && w.exited == s.exited && w.notify == s.notify && w.out.done == s.out.done && w.err.done == s.err.done
    requires s' == w.(buffer := [], notify := Called(1, s.notify.code))
    ensures ChannelKeeps(s'.out) && ChannelKeeps(s'.err) && StagesFit(cfg, s') && ClosedFits(s') && ParentFits(cfg, s')
  {
    hide Own, ChannelKeeps;
  }

  lemma FlushPrinted(cfg: Config, s: State)
    requires ValidConfig(cfg) && Inv(cfg, s) && Enabled(cfg, s, FlushAll)
    ensures PrintedFits(cfg, Take(cfg, s, FlushAll))
  {
    OpenYet(cfg, s, FlushAll, StdOut);
    FlushIs(cfg, s);
    WrittenKeeps(cfg, s, StdOut, true, s.buffer);
    assert PrintedFits(cfg, s);
    hide Own, Sent, IsShut, ChannelKeeps, Written, Inv, StagesFit, ParentFits, ClosedFits, Take, Enabled;
    if cfg.relayErr { WrittenOwn(cfg, s, StdOut, true, s.buffer, StdErr); }
    if cfg.relayOut { WrittenOwn(cfg, s, StdOut, true, s.buffer, StdOut); }
  }

  lemma FlushAllKeeps(cfg: Config, s: State)
    requires ValidConfig(cfg) && Inv(cfg, s) && Enabled(cfg, s, FlushAll)
    ensures Inv(cfg, Take(cfg, s, FlushAll))
  {
    hide *;
    FlushIs(cfg, s);
    var (w, s') := (Written(cfg, s, StdOut, true, s.buffer), Take(cfg, s, FlushAll));
    OpenYet(cfg, s, FlushAll, StdOut);
    WrittenKeeps(cfg, s, StdOut, true, s.buffer);
    FlushPrinted(cfg, s);
    FlushRest(cfg, s, w, s');
    IsInv(cfg, s');
  }

  lemma NotifyKeeps(cfg: Config, s: State, step: Step)
    requires ValidConfig(cfg) && Inv(cfg, s) && Enabled(cfg, s, step)
    requires step.CallNotify? || step.ShutOut? || step.ShutErr? || step.SendStatus? || step.Exit?
    ensures Inv(cfg, Take(cfg, s, step))
  {
    hide Own;
    var own := Sent(cfg, s, StdErr);
    assert own <= own && s.printedOut <= s.printedOut;
  }

  /** A channel may advance by itself: what entered it, and whether it is shut, stay. */
  lemma ChannelSteps(cfg: Config, s: State, c: Stream, ch: Channel)
    requires Inv(cfg, s) && ChannelKeeps(ch)
    requires var was := Get(s, c);
      ch.pushed == was.pushed && ch.shut == was.shut && (was.done ==> ch.done) && (ch.closed && !was.closed ==> s.exited.Some?)
    ensures Inv(cfg, Set(s, c, ch))
  {
    hide Own, ChannelKeeps;
  }

  lemma RelayKeeps(cfg: Config, s: State, step: Step)
    requires ValidConfig(cfg) && Inv(cfg, s) && Enabled(cfg, s, step)
    requires step.Close? || step.RelayRead? || step.RelayWrite? || step.RelayEnd?
    ensures Inv(cfg, Take(cfg, s, step))
  {
    var ch := Get(s, step.channel);
    assert ChannelKeeps(ch);
    hide Own;
    if step.RelayRead? {
      assert ch.queue == ch.queue[..step.count] + ch.queue[step.count..];
      assert ch.delivered + [] + ch.queue == ch.delivered + ch.queue[..step.count] + ch.queue[step.count..];
      ChannelSteps(cfg, s, step.channel, ch.(inFlight := ch.queue[..step.count], queue := ch.queue[step.count..]));
    } else if step.RelayWrite? {
      assert ch.delivered + ch.inFlight + [] + ch.queue == ch.delivered + ch.inFlight + ch.queue;
      ChannelSteps(cfg, s, step.channel, ch.(delivered := ch.delivered + ch.inFlight, inFlight := []));
    } else if step.RelayEnd? {
      ChannelSteps(cfg, s, step.channel, ch.(done := true));
    } else {
      ChannelSteps(cfg, s, step.channel, ch.(closed := true));
    }
  }

  lemma ParentKeeps(cfg: Config, s: State, step: Step)
    requires ValidConfig(cfg) && Inv(cfg, s) && Enabled(cfg, s, step)
    requires step.ParentRead? || step.ParentEof? || step.ParentReturn?
    ensures Inv(cfg, Take(cfg, s, step))
  {
    hide Own, ChannelKeeps;
  }

  /** Every step of any process keeps the invariant. */
  lemma StepKeeps(cfg: Config, s: State, step: Step)
    requires ValidConfig(cfg) && Inv(cfg, s) && Enabled(cfg, s, step)
    ensures Inv(cfg, Take(cfg, s, step))
  {
    hide Inv, Enabled, Take;
    match step
    case PrintOut(bytes) => PrintOutKeeps(cfg, s, bytes);
    case PrintErr(bytes) => PrintErrKeeps(cfg, s, bytes);
    case Drain(count) => DrainKeeps(cfg, s, count);
    case Subprocess(stream, bytes) => SubprocessKeeps(cfg, s, stream, bytes);
    case FlushAll => FlushAllKeeps(cfg, s);
    case Close(_) => RelayKeeps(cfg, s, step);
    case RelayRead(_, _) => RelayKeeps(cfg, s, step);
    case RelayWrite(_) => RelayKeeps(cfg, s, step);
    case RelayEnd(_) => RelayKeeps(cfg, s, step);
    case ParentRead => ParentKeeps(cfg, s, step);
    case ParentEof => ParentKeeps(cfg, s, step);
    case ParentReturn => ParentKeeps(cfg, s, step);
    case _ => NotifyKeeps(cfg, s, step);
  }

  lemma {:induction false} RunKeeps(cfg: Config, states: seq<State>, steps: seq<Step>, i: nat)
    requires ValidConfig(cfg) && Run(cfg, states, steps) && i < |states|
    ensures Inv(cfg, states[i])
  {
    hide Inv, Enabled, Take;
    if i == 0 {
      InitInv(cfg);
    } else {
      RunKeeps(cfg, states, steps, i - 1);
      StepKeeps(cfg, states[i - 1], steps[i - 1]);
    }
  }

  // ---- What `notify` recorded ----

  /** Once called, `notify` keeps its code and what had been printed by then. */
  lemma NotifyStays(cfg: Config, s: State, step: Step)
    requires Enabled(cfg, s, step)
    ensures var s' := Take(cfg, s, step);
      && (s.notify.Called? ==> s'.notify.Called? && s'.notify.code == s.notify.code && s'.beforeOut == s.beforeOut && s'.beforeErr == s.beforeErr)
      && (s.notify.NotCalled? && s'.notify.Called? ==>
            step == CallNotify(s'.notify.code) && s'.beforeOut == s.printedOut && s'.beforeErr == s.printedErr)
  {
  }

  lemma {:induction false} FirstCall(cfg: Config, states: seq<State>, steps: seq<Step>, n: nat) returns (i: nat)
    requires Run(cfg, states, steps) && n < |states| && states[n].notify.Called?
    ensures i < n && steps[i] == CallNotify(states[n].notify.code)
    ensures forall j :: 0 <= j < i ==> !steps[j].CallNotify?
    ensures states[n].beforeOut == states[i].printedOut && states[n].beforeErr == states[i].printedErr
    decreases n
  {
    hide Enabled, Take;
    NotifyStays(cfg, states[n - 1], steps[n - 1]);
    if states[n - 1].notify.Called? {
      i := FirstCall(cfg, states, steps, n - 1);
    } else {
      i := n - 1;
      NoneCalled(cfg, states, steps, n - 1);
    }
  }

  lemma {:induction false} NoneCalled(cfg: Config, states: seq<State>, steps: seq<Step>, n: nat)
    requires Run(cfg, states, steps) && n < |states| && states[n].notify.NotCalled?
    ensures forall j :: 0 <= j < n ==> !steps[j].CallNotify?
    decreases n
  {
    if n > 0 {
      hide Enabled, Take;
      NoneCalled(cfg, states, steps, n - 1);
    }
  }

  // ---- What the parent returns ----

  function Printed(s: State, stream: Stream): seq<Byte>
  {
    if stream.StdOut? then s.printedOut else s.printedErr
  }

  /**
    If the child reported, the parent returns the code of the first call of
    `notify`, and by then everything the child printed to a relayed stream
    before that call has been delivered, in order, and nothing of the channel
    is missing or out of order.
   */
  lemma ReportedIsDelivered(cfg: Config, states: seq<State>, steps: seq<Step>, n: nat) returns (i: nat)
    requires ValidConfig(cfg) && Run(cfg, states, steps) && n < |states|
    requires states[n].parent.Returned? && states[n].parent.reported.Some?
    ensures states[n].notify.Called? && i < n
    ensures steps[i] == CallNotify(states[n].notify.code) && (forall j :: 0 <= j < i ==> !steps[j].CallNotify?)
    ensures states[n].parent.code == states[n].notify.code
    ensures forall stream :: Relayed(cfg, stream) ==>
      var ch := Get(states[n], ChannelOf(cfg, stream));
      ch.delivered == ch.pushed && Printed(states[i], stream) <= Own(ch.delivered, stream)
  {
    RunKeeps(cfg, states, steps, n);
    i := FirstCall(cfg, states, steps, n);
    forall stream | Relayed(cfg, stream)
      ensures var ch := Get(states[n], ChannelOf(cfg, stream));
        ch.delivered == ch.pushed && Printed(states[i], stream) <= Own(ch.delivered, stream)
    {
      Delivered(cfg, states[n], stream);
    }
  }

  lemma Delivered(cfg: Config, s: State, stream: Stream)
    requires Inv(cfg, s) && s.parent.Returned? && s.parent.reported.Some? && Relayed(cfg, stream)
    ensures var ch := Get(s, ChannelOf(cfg, stream));
      && ch.delivered == ch.pushed
      && (if stream.StdOut? then s.beforeOut else s.beforeErr) <= Own(ch.delivered, stream)
  {
    hide Own;
    var ch := Get(s, ChannelOf(cfg, stream));
    assert ch.delivered + [] + [] == ch.delivered;
  }

  /** The code a shell would give: the low byte of an exit code; 128 and the signal, if that is a byte; 1 for no known end. */
  predicate IsCodeOf(w: Wait, code: int)
  {
    match w
    case Exited(c) => 0 <= code <= 255 && (c - code) % 256 == 0
    case Signalled(signal) => code == if signal < 128 then 128 + signal else 1
    case _ => code == 1
  }

  predicate EndedWell(w: Wait)
  {
    w.Exited? && w.code % 256 == 0
  }

  /** Otherwise the child exited without a status reaching the parent, which returns its wait status. */
  lemma UnreportedIsWaitStatus(cfg: Config, states: seq<State>, steps: seq<Step>, n: nat)
    requires ValidConfig(cfg) && Run(cfg, states, steps) && n < |states|
    requires states[n].parent.Returned? && states[n].parent.reported.None?
    ensures states[n].exited.Some? && IsCodeOf(states[n].exited.value, states[n].parent.code)
    ensures states[n].parent.code == 0 <==> EndedWell(states[n].exited.value)
    ensures states[n].status == []
    ensures forall stream :: Relayed(cfg, stream) ==>
      Get(states[n], ChannelOf(cfg, stream)).delivered == Get(states[n], ChannelOf(cfg, stream)).pushed
  {
    RunKeeps(cfg, states, steps, n);
    forall stream | Relayed(cfg, stream)
      ensures Get(states[n], ChannelOf(cfg, stream)).delivered == Get(states[n], ChannelOf(cfg, stream)).pushed
    {
      var ch := Get(states[n], ChannelOf(cfg, stream));
      assert ch.delivered + [] + [] == ch.delivered;
    }
  }

  // ---- Nothing waits for ever ----

  /** Whether no more can enter a stream's channel. */
  predicate Ended(cfg: Config, s: State, stream: Stream)
  {
    Relayed(cfg, stream) ==> Get(s, ChannelOf(cfg, stream)).shut || Get(s, ChannelOf(cfg, stream)).closed
  }

  /** A relay that has not ended, with no more to come, can take a step. */
  function RelayStep(s: State, c: Stream): Step
  {
    var ch := Get(s, c);
    if ch.inFlight != [] then RelayWrite(c) else if ch.queue != [] then RelayRead(c, |ch.queue|) else RelayEnd(c)
  }

  /** How much is left for a relay to do. */
  function Left(ch: Channel): nat
  {
    if ch.done then 0 else 1 + (if ch.inFlight == [] then 0 else 1) + (if ch.queue == [] then 0 else 2)
  }

  /** Each such step leaves less to do, and the channel as ended as it was. */
  lemma RelayAdvances(cfg: Config, s: State, stream: Stream)
    requires Relayed(cfg, stream) && Ended(cfg, s, stream) && ChannelKeeps(Get(s, ChannelOf(cfg, stream)))
    requires !Get(s, ChannelOf(cfg, stream)).done
    ensures var step := RelayStep(s, ChannelOf(cfg, stream));
      && Enabled(cfg, s, step)
      && Left(Get(Take(cfg, s, step), ChannelOf(cfg, stream))) < Left(Get(s, ChannelOf(cfg, stream)))
      && Ended(cfg, Take(cfg, s, step), stream)
  {
  }

  /**
    Once the child has sent its status, the parent never waits for the child:
    some step of a relay or of the parent is enabled until it has returned,
    even if the child and its subprocesses never exit.
   */
  lemma ParentNeverWaits(cfg: Config, s: State) returns (step: Step)
    requires ValidConfig(cfg) && Inv(cfg, s) && Past(s, 4) && !s.parent.Returned?
    ensures Enabled(cfg, s, step)
    ensures step.ParentRead? || step.ParentReturn? || step.RelayRead? || step.RelayWrite? || step.RelayEnd?
  {
    hide Own;
    if s.parent.Reading? {
      step := ParentRead;
    } else if cfg.relayOut && !Get(s, ChannelOf(cfg, StdOut)).done {
      RelayAdvances(cfg, s, StdOut);
      step := RelayStep(s, ChannelOf(cfg, StdOut));
    } else if cfg.relayErr && !Get(s, ChannelOf(cfg, StdErr)).done {
      RelayAdvances(cfg, s, StdErr);
      step := RelayStep(s, ChannelOf(cfg, StdErr));
    } else {
      step := ParentReturn;
    }
  }
}
