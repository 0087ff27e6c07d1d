/** Send timing that yields to a peer frame in progress. */
module SendSchedule {
  import opened Basics

  class Schedule {
    const period: nat
    const gap: nat
    const frameTimeout: nat
    var due: nat
    var lastRx: nat
    var partialSince: Option<nat>

    constructor (initialDelay: nat, period: nat, gap: nat, frameTimeout: nat, now: nat)
      ensures this.period == period && this.gap == gap && this.frameTimeout == frameTimeout
      ensures due == now + initialDelay && lastRx == now && partialSince == None
    {
      this.period, this.gap, this.frameTimeout := period, gap, frameTimeout;
      due, lastRx, partialSince := now + initialDelay, now, None;
    }

    /** The deadline of a partial frame runs from its first byte, not its last. */
    method Received(now: nat, partial: bool)
      modifies this`lastRx, this`partialSince
      ensures lastRx == now
      ensures partialSince == if !partial then None else if old(partialSince).Some? then old(partialSince) else Some(now)
    {
      lastRx := now;
      if !partial { partialSince := None; } else if partialSince.None? { partialSince := Some(now); }
    }

    predicate PartialExpired(now: nat)
      reads this
    {
      partialSince.Some? && Elapsed(now, partialSince.value) >= frameTimeout
    }

    method DiscardPartial()
      modifies this`partialSince
      ensures partialSince == None
    {
      partialSince := None;
    }

    predicate MaySend(now: nat)
      reads this
    {
      now >= due && partialSince.None? && Elapsed(now, lastRx) >= gap
    }

    method SentOrSkipped(now: nat)
      modifies this`due
      ensures due == now + period
    {
      due := now + period;
    }
  }
}

/** The stream worker as the program runs it: one serial owner that receives, times out and transmits. */
module StreamWorker {
  import opened Basics
  import opened Points
  import opened SendSchedule
  import opened Mailboxes
  import opened StreamModel
  import Frame
  import FrameStream

  class Worker {
    const decoder: FrameStream.FrameDecoder
    const schedule: Schedule
    const store: PointStore
    const task: string
    const respond: Bytes -> Response
    const receiveTimeout: nat
    var lastValid: nat
    var timedOut: bool
    var receivedValid: bool

    ghost function Serves(): Contract
      reads store
    {
      Contract(store.definitions, store.tasks, task, respond)
    }

    ghost function Config(): Setup
      reads store
    {
      Setup(decoder.codec, decoder.limits, schedule.period, schedule.gap, schedule.frameTimeout, receiveTimeout, Serves())
    }

    ghost function Hears(): Ear
      reads decoder, schedule
    {
      Ear(decoder.buffer, schedule.partialSince)
    }

    ghost function Displays(): Shown
      reads this, store
    {
      Shown(store.samples, lastValid, timedOut, receivedValid)
    }

    ghost function Sends(): Sender
      reads schedule
    {
      Sender(schedule.due, schedule.lastRx)
    }

    /** The partial time is set exactly when undecoded bytes are buffered. */
    ghost predicate Valid()
      reads this, decoder, schedule, store
    {
      decoder.Valid() && store.Valid() && task in store.tasks && Tracks(Hears())
    }

    /** A fresh connection. */
    constructor (codec: Frame.Codec, limits: Frame.Limits, schedule: Schedule, store: PointStore, task: string,
                 respond: Bytes -> Response, receiveTimeout: nat, now: nat)
      requires limits.Valid() && store.Valid() && task in store.tasks && schedule.partialSince == None
      ensures Valid() && fresh(decoder) && this.schedule == schedule && this.store == store
      ensures Config() == Setup(codec, limits, schedule.period, schedule.gap, schedule.frameTimeout, receiveTimeout,
                                Contract(store.definitions, store.tasks, task, respond))
      ensures Hears() == Ear([], None) && Displays() == Shown(store.samples, now, false, false)
    {
      decoder := new FrameStream.FrameDecoder(codec, limits);
      this.schedule, this.store, this.task, this.respond := schedule, store, task, respond;
      this.receiveTimeout, lastValid, timedOut, receivedValid := receiveTimeout, now, false, false;
    }

    method FailTask(quality: Quality)
      requires store.Valid() && task in store.tasks && quality != Good
      modifies store`samples
      ensures store.Valid()
      ensures Displays() == FailShown(Serves(), old(Displays()), quality)
    {
      hide Zero, FailedAt;
      var _ := store.Fail(task, quality);
    }

    /** One payload: the store and the liveness record change exactly as its response demands. */
    method DeliverOne(payload: Bytes, now: nat)
      requires store.Valid() && task in store.tasks
      modifies this`lastValid, this`timedOut, this`receivedValid, store`samples
      ensures store.Valid()
      ensures Displays() == TakeOne(Serves(), old(Displays()), payload, now)
    {
      hide FailedAt, Overlaid;
      var failure := if timedOut then NoCommunication else Configuration;
      match respond(payload)
      case Matched(updates) =>
        var ok := store.Publish(task, updates, now);
        if ok {
          lastValid, timedOut, receivedValid := now, false, true;
        } else {
          FailTask(failure);
        }
      case Ignore =>
      case Mismatch => FailTask(failure);
    }

    method Deliver(payloads: seq<Bytes>, now: nat)
      requires store.Valid() && task in store.tasks
      modifies this`lastValid, this`timedOut, this`receivedValid, store`samples
      ensures store.Valid()
      ensures Displays() == Take(Serves(), old(Displays()), payloads, now)
    {
      hide TakeOne;
      for i := 0 to |payloads|
        invariant store.Valid()
        invariant Displays() == Take(Serves(), old(Displays()), payloads[..i], now)
      {
        assert payloads[..i + 1][..i] == payloads[..i];
        DeliverOne(payloads[i], now);
      }
      assert payloads[..|payloads|] == payloads;
    }

    /** The receiving half of a turn. An over-long chunk cannot occur: the read buffer is no longer than
        a frame. */
    method Receive(t: Turn)
      requires Valid() && Heard(decoder.limits, t)
      modifies this, decoder`buffer, schedule`lastRx, schedule`partialSince, store`samples
      ensures Valid()
      ensures var l := Listen(Config(), old(Hears()), t);
              Hears() == l.ear && Displays() == Take(Serves(), old(Displays()), l.payloads, t.readAt)
      ensures schedule.lastRx == t.readAt
    {
      hide Take, FrameStream.Scan, FrameStream.Payloads;
      var fed := decoder.Feed(t.read.bytes);
      match fed
      case Ok(frames) =>
        if frames.payloads != [] {
          schedule.DiscardPartial();
        }
        schedule.Received(t.readAt, decoder.buffer != []);
        Deliver(frames.payloads, t.readAt);
      case Err(_) =>
        assert false;
    }

    /** Giving up on an expired partial frame. */
    method Expire(now: nat)
      requires Valid()
      modifies this, decoder`buffer, schedule`partialSince, store`samples
      ensures Valid()
      ensures var g := GiveUp(Config(), old(Hears()), now);
              Hears() == g.ear && Displays() == Take(Serves(), old(Displays()), g.payloads, now)
    {
      if schedule.PartialExpired(now) {
        hide Take, FrameStream.Recover, FrameStream.Payloads;
        var recovered := decoder.RecoverExpired();
        Deliver(recovered.payloads, now);
        schedule.DiscardPartial();
      }
    }

    method CheckLiveness(now: nat)
      requires Valid()
      modifies this`timedOut, store`samples
      ensures Valid()
      ensures Displays() == Watch(Config(), old(Displays()), now)
    {
      hide FailedAt;
      if !timedOut && Elapsed(now, lastValid) >= receiveTimeout {
        FailTask(NoCommunication);
        timedOut := true;
      }
    }

    /** The transmitting half, after what was heard in this turn has been recorded. */
    method Transmit(t: Turn, index: nat, ghost before: Sender) returns (going: bool, sent: Option<Sent>)
      requires Valid() && Sendable(decoder.limits, t.mail)
      requires schedule.due == before.due && schedule.lastRx == LastRx(Config(), before, t)
      modifies schedule`due
      ensures Valid()
      ensures sent == Transmission(Config(), Hears(), before, t, index)
      ensures going <==> sent.None? || t.writes
      ensures going ==> Sends() == SenderStep(Config(), Hears(), before, t)
    {
      NeverTooLarge(Config(), Hears(), before, t, index);
      hide Outgoing, Frame.Encode, Sendable;
      going, sent := true, None;
      if schedule.MaySend(t.decideAt) {
        match Outgoing(t.mail, t.decideAt) {
          case None =>
          case Some(payload) =>
            var frame := Frame.Encode(decoder.codec, payload, decoder.limits).value;
            sent := Some(Sent(index, t.decideAt, t.doneAt, t.mail, payload, frame));
            if !t.writes {
              going := false;
              return;
            }
        }
        schedule.SentOrSkipped(t.doneAt);
      }
    }

    /** One turn of the loop. A failed read or write ends the connection; a failed read changes nothing. */
    method Pass(t: Turn, index: nat) returns (going: bool, sent: Option<Sent>)
      requires Valid() && Sendable(decoder.limits, t.mail)
      modifies this, decoder`buffer, schedule, store`samples
      ensures Valid()
      ensures if Lost(decoder.limits, t) then
          !going && sent == None && Hears() == old(Hears()) && Displays() == old(Displays()) && Sends() == old(Sends())
        else
          && Hears() == EarStep(Config(), old(Hears()), t)
          && Displays() == ShownStep(Config(), old(Hears()), old(Displays()), t)
          && sent == Transmission(Config(), Hears(), old(Sends()), t, index)
          && (going <==> sent.None? || t.writes)
          && (going ==> Sends() == SenderStep(Config(), Hears(), old(Sends()), t))
    {
      hide Sendable, Take, Watch, Transmission, FrameStream.Scan, FrameStream.Recover, FrameStream.Payloads;
      ghost var before := Sends();
      TakeNothing(Serves(), Displays(), t.readAt);
      if Heard(decoder.limits, t) {
        Receive(t);
      } else if !t.read.Quiet? {
        return false, None;
      }
      Expire(t.decideAt);
      CheckLiveness(t.decideAt);
      going, sent := Transmit(t, index, before);
    }

    /** The loop: after `turn` turns everything the worker holds and everything it sent is what those
        turns determine. */
    method RunTurns(turns: seq<Turn>) returns (going: bool, turn: nat, sent: seq<Sent>)
      requires Valid() && forall i :: 0 <= i < |turns| ==> Sendable(decoder.limits, turns[i].mail)
      modifies this, decoder`buffer, schedule, store`samples
      ensures Valid() && turn <= |turns|
      ensures Hears() == EarAfter(Config(), old(Hears()), turns, turn)
      ensures Displays() == ShownAfter(Config(), old(Hears()), old(Displays()), turns, turn)
      ensures sent == SendingAfter(Config(), old(Hears()), old(Sends()), turns, turn).sent
      ensures going ==> turn == |turns| && Sends() == SendingAfter(Config(), old(Hears()), old(Sends()), turns, turn).sender
      ensures !going ==> EndsConnection(decoder.limits, turns, turn, sent)
    {
      hide Valid, Hears, Displays, Sends, Sendable, EarStep, ShownStep, SenderStep, Transmission, Lost, EarAfter, ShownAfter, SendingAfter;
      going, sent, turn := true, [], 0;
      ghost var setup, ear, shown, sender := Config(), Hears(), Displays(), Sends();
      AtStart(setup, ear, shown, sender, turns);
      while turn < |turns|
        invariant Valid() && turn <= |turns| && going && Config() == setup
        invariant Hears() == EarAfter(setup, ear, turns, turn)
        invariant Displays() == ShownAfter(setup, ear, shown, turns, turn)
        invariant Sending(Sends(), sent) == SendingAfter(setup, ear, sender, turns, turn)
      {
        var s: Option<Sent>;
        ghost var due := Sends();
        going, s := Pass(turns[turn], turn);
        if Lost(decoder.limits, turns[turn]) { break; }
        OneTurn(setup, ear, shown, sender, turns, turn);
        TransmissionTurn(setup, Hears(), due, turns[turn], turn);
        sent := sent + if s.Some? then [s.value] else [];
        turn := turn + 1;
        if !going { break; }
      }
    }

    /** A whole connection, for every behaviour of the transport, the clock, the peer and the mailbox.
        The supervisor has failed the task's points before. */
    method RunStream(turns: seq<Turn>, ghost start: nat) returns (going: bool, turn: nat, sent: seq<Sent>)
      requires Valid() && Ordered(start, turns) && schedule.lastRx <= start && Frame.Sound(decoder.codec)
      requires !SomeGood(Serves(), store.samples)
      requires forall i :: 0 <= i < |turns| ==> Sendable(decoder.limits, turns[i].mail)
      modifies this, decoder`buffer, schedule, store`samples
      ensures Valid() && turn <= |turns| && (going ==> turn == |turns|)
      ensures !going ==> EndsConnection(decoder.limits, turns, turn, sent)
      ensures Hears() == EarAfter(Config(), old(Hears()), turns, turn)
      ensures Displays() == ShownAfter(Config(), old(Hears()), old(Displays()), turns, turn)
      ensures sent == SendingAfter(Config(), old(Hears()), old(Sends()), turns, turn).sent
      ensures Disciplined(Config(), old(Hears()), old(schedule.due), turns, sent)
      ensures forall n :: 0 < n <= turn ==>
                Live(Config(), old(Hears()), turns, n, ShownAfter(Config(), old(Hears()), old(Displays()), turns, n))
    {
      ghost var setup, ear, shown, sender := Config(), Hears(), Displays(), Sends();
      StoreGoverns(store, task, respond);
      hide *;
      going, turn, sent := RunTurns(turns);
      SendsDisciplined(setup, ear, sender, start, turns, turn);
      forall n | 0 < n <= turn ensures Live(setup, ear, turns, n, ShownAfter(setup, ear, shown, turns, n)) {
        GoodTracksLiveness(setup, ear, shown, turns, n);
      }
    }
  }

  /** Why a connection ended: the next read failed, or the last transmission could not be written. */
  ghost predicate EndsConnection(limits: Frame.Limits, turns: seq<Turn>, turn: nat, sent: seq<Sent>) {
    || (turn < |turns| && Lost(limits, turns[turn]))
    || (0 < turn <= |turns| && sent != [] && sent[|sent| - 1].turn == turn - 1 && !turns[turn - 1].writes)
  }

  lemma TakeNothing(c: Contract, shown: Shown, now: nat)
    ensures Take(c, shown, [], now) == shown
  {
  }

  lemma AtStart(setup: Setup, ear: Ear, shown: Shown, sender: Sender, turns: seq<Turn>)
    ensures EarAfter(setup, ear, turns, 0) == ear && ShownAfter(setup, ear, shown, turns, 0) == shown
    ensures SendingAfter(setup, ear, sender, turns, 0) == Sending(sender, [])
  {
  }

  lemma OneTurn(setup: Setup, ear: Ear, shown: Shown, sender: Sender, turns: seq<Turn>, n: nat)
    requires n < |turns|
    ensures var was, now := EarAfter(setup, ear, turns, n), EarAfter(setup, ear, turns, n + 1);
            var before, t := SendingAfter(setup, ear, sender, turns, n), turns[n];
            var sent := Transmission(setup, now, before.sender, t, n);
      && now == EarStep(setup, was, t)
      && ShownAfter(setup, ear, shown, turns, n + 1) == ShownStep(setup, was, ShownAfter(setup, ear, shown, turns, n), t)
      && SendingAfter(setup, ear, sender, turns, n + 1)
         == Sending(SenderStep(setup, now, before.sender, t), before.sent + if sent.Some? then [sent.value] else [])
  {
    hide EarStep, ShownStep, SenderStep, Transmission;
  }

  lemma TransmissionTurn(setup: Setup, now: Ear, sender: Sender, t: Turn, index: nat)
    ensures var s := Transmission(setup, now, sender, t, index); s.Some? ==> s.value.turn == index
  {
    hide Outgoing, Frame.Encode;
  }

  lemma StoreGoverns(store: PointStore, task: string, respond: Bytes -> Response)
    requires store.Valid() && task in store.tasks
    ensures Governs(Contract(store.definitions, store.tasks, task, respond), store.samples)
  {
  }
}
