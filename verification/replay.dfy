/**
 * The capture replayer: the first datagram on a trigger port starts a run
 * that re-sends the captured RTP packets (RFC 3550) to the datagram's sender,
 * from a fixed start index to the end of the capture, each after a delay
 * equal to the capture-time gap to its predecessor.
 *
 * The scheduler has two states, idle and replaying (the `started` flag).
 * Delays are in integer microseconds.
 */
module Replay {
  import opened Wrappers
  import opened Net

  newtype uint8 = x: int | 0 <= x < 256

  /** Ethernet (14) + IPv4 (20) + UDP (8) header bytes in front of each RTP packet. */
  const LinkHeaderLength: nat := 42

  /** The first packet a run sends; the packets before it are capture set-up. */
  const StartIndex: nat := 918

  const MicrosPerSecond: int := 1000000

  /** A captured packet: its raw frame and its capture time as seconds plus microseconds. */
  datatype Packet = Packet(raw: seq<uint8>, seconds: int, micros: int)

  /** The capture time in microseconds. */
  function Micros(p: Packet): int {
    p.seconds * MicrosPerSecond + p.micros
  }

  /** The capture-time gap from packet `i` to its successor, in microseconds. */
  function Gap(store: seq<Packet>, i: nat): int
    requires i + 1 < |store|
  {
    Micros(store[i + 1]) - Micros(store[i])
  }

  /** Capture times that never go backwards. */
  predicate Chronological(store: seq<Packet>) {
    forall i, j :: 0 <= i <= j < |store| ==> Micros(store[i]) <= Micros(store[j])
  }

  /** `raw[42:]`: the RTP packet inside the frame, empty for a frame shorter than the headers. */
  function Payload(raw: seq<uint8>): (r: seq<uint8>)
    ensures |raw| >= LinkHeaderLength ==> raw == raw[..LinkHeaderLength] + r
    ensures |raw| <= LinkHeaderLength ==> r == []
  {
    if |raw| <= LinkHeaderLength then [] else raw[LinkHeaderLength..]
  }

  /**
   * The wait between sending `p` and sending `q`, computed as `pushDataIndex`
   * does: the microsecond difference within one second, and otherwise the
   * rest of `p`'s second, plus `q`'s microseconds, plus the whole seconds
   * in between. Both branches give the true capture-time difference.
   */
  function DelayMicros(p: Packet, q: Packet): (d: int)
    ensures d == Micros(q) - Micros(p)
    ensures Micros(p) <= Micros(q) ==> d >= 0
  {
    if q.seconds - p.seconds == 0 then
      q.micros - p.micros
    else
      (q.micros + (MicrosPerSecond - p.micros)) + (q.seconds - p.seconds - 1) * MicrosPerSecond
  }

  /** A gap that crosses one second boundary, and one that spans a whole extra second. */
  lemma DelayAcrossSeconds()
    ensures DelayMicros(Packet([], 10, 900000), Packet([], 11, 100000)) == 200000
    ensures DelayMicros(Packet([], 10, 500000), Packet([], 12, 500000)) == 2000000
  {
  }

  /** A frame put on the wire. */
  datatype Datagram = Datagram(payload: seq<uint8>, dest: Address)

  /** `reactor.callLater(delay, pushDataIndex, index, dest)`. */
  datatype Timer = Timer(delay: int, index: nat, dest: Address)

  /**
   * The effect of one callback: the `started` flag afterwards, what was
   * sent, the follow-up timer, and whether the callback raised: on an index
   * past the end of the capture, or when the reactor's `callLater` rejects
   * a negative delay (Twisted asserts `delay >= 0`).
   */
  datatype Step = Step(started: bool, sent: seq<Datagram>, timer: Option<Timer>, fault: bool)

  /**
   * `pushDataIndex(index, dest)`: send one packet and schedule the next, or
   * finish the run. The packet is written before the next one is scheduled,
   * so a negative gap sends it and then raises with the flag still up.
   */
  function PushDataIndex(store: seq<Packet>, started: bool, index: nat, dest: Address): (r: Step)
    ensures index >= |store| ==> r == Step(started, [], None, true)
    ensures index < |store| ==> r.sent == [Datagram(Payload(store[index].raw), dest)]
    ensures index + 1 < |store| && Gap(store, index) >= 0 ==>
      !r.fault && r.started == started && r.timer == Some(Timer(Gap(store, index), index + 1, dest))
    ensures index + 1 < |store| && Gap(store, index) < 0 ==>
      r.fault && r.started == started && r.timer.None?
    ensures index + 1 == |store| ==> !r.fault && !r.started && r.timer.None?
  {
    if index >= |store| then Step(started, [], None, true)
    else
      var sent := [Datagram(Payload(store[index].raw), dest)];
      if index + 1 < |store| then
        var delay := DelayMicros(store[index], store[index + 1]);
        if delay >= 0 then Step(started, sent, Some(Timer(delay, index + 1, dest)), false)
        else Step(started, sent, None, true)
      else
        Step(false, sent, None, false)
  }

  /**
   * `datagramReceived(data, src)` on the trigger port: ignored while a run is
   * in progress; otherwise the flag is raised and a run to `src` starts at
   * `StartIndex`. The payload of the trigger is never looked at.
   */
  function DatagramReceived(store: seq<Packet>, started: bool, src: Address): (r: Step)
    ensures started ==> r == Step(true, [], None, false)
    ensures !started && StartIndex < |store| ==>
      r.sent == [Datagram(Payload(store[StartIndex].raw), src)]
    ensures !started && StartIndex + 1 < |store| && Gap(store, StartIndex) >= 0 ==>
      r.started && !r.fault && r.timer == Some(Timer(Gap(store, StartIndex), StartIndex + 1, src))
    ensures !started && StartIndex + 1 < |store| && Gap(store, StartIndex) < 0 ==>
      r.started && r.fault && r.timer.None?
    ensures !started && StartIndex + 1 == |store| ==> !r.started && !r.fault && r.timer.None?
    ensures !started && |store| <= StartIndex ==> r.started && r.fault && r.sent == [] && r.timer.None?
  {
    if started then Step(true, [], None, false)
    else PushDataIndex(store, true, StartIndex, src)
  }

  /** The replayer together with the timer it has pending in the reactor. */
  datatype Scheduler = Scheduler(started: bool, pending: Option<Timer>)

  const Idle: Scheduler := Scheduler(false, None)

  /** What can happen next: a trigger datagram arrives, or the pending timer fires. */
  datatype Event = Trigger(src: Address) | Fire

  /**
   * The reactor delivering one event to the replayer: the scheduler
   * afterwards and the datagrams sent. A trigger while idle starts a run at
   * `StartIndex`; a firing sends the pending timer's packet and replaces the
   * timer by the next one, if any. A negative gap leaves the flag up with no
   * timer.
   */
  function Handle(store: seq<Packet>, s: Scheduler, e: Event): (r: (Scheduler, seq<Datagram>))
    ensures e.Trigger? && s.started ==> r == (s, [])
    ensures e.Trigger? && !s.started ==>
      && r.1 == (if StartIndex < |store| then [Datagram(Payload(store[StartIndex].raw), e.src)] else [])
      && r.0 == (if StartIndex + 1 == |store| then Idle
                 else if StartIndex + 1 < |store| && Gap(store, StartIndex) >= 0
                 then Scheduler(true, Some(Timer(Gap(store, StartIndex), StartIndex + 1, e.src)))
                 else Scheduler(true, None))
    ensures e.Fire? && s.pending.None? ==> r == (s, [])
    ensures e.Fire? && s.pending.Some? && s.pending.value.index >= |store| ==>
      r == (Scheduler(s.started, None), [])
    ensures e.Fire? && s.pending.Some? && s.pending.value.index < |store| ==>
      var t := s.pending.value;
      && r.1 == [Datagram(Payload(store[t.index].raw), t.dest)]
      && r.0 == (if t.index + 1 == |store| then Idle
                 else if Gap(store, t.index) >= 0
                 then Scheduler(s.started, Some(Timer(Gap(store, t.index), t.index + 1, t.dest)))
                 else Scheduler(s.started, None))
  {
    match e
    case Trigger(src) =>
      var st := DatagramReceived(store, s.started, src);
      (Scheduler(st.started, if s.started then s.pending else st.timer), st.sent)
    case Fire =>
      match s.pending
      case None => (s, [])
      case Some(t) =>
        var st := PushDataIndex(store, s.started, t.index, t.dest);
        (Scheduler(st.started, st.timer), st.sent)
  }

  /**
   * The reachable states: a pending timer belongs to a run in progress and
   * points inside the capture past the start index, after a delay that is
   * not negative; on a chronological capture long enough to replay, a run
   * in progress always has its next timer pending.
   */
  predicate Consistent(store: seq<Packet>, s: Scheduler) {
    && (s.pending.Some? ==> s.started && StartIndex < s.pending.value.index < |store| && s.pending.value.delay >= 0)
    && (StartIndex < |store| && Chronological(store) && s.started ==> s.pending.Some?)
  }

  lemma HandleKeepsConsistent(store: seq<Packet>, s: Scheduler, e: Event)
    requires Consistent(store, s)
    ensures Consistent(store, Handle(store, s, e).0)
  {
  }

  /** A run that has finished leaves the scheduler idle, so the next trigger starts a new run. */
  lemma NewRunAfterFinish(store: seq<Packet>, t: Timer, src: Address)
    requires StartIndex < |store| && t.index + 1 == |store|
    ensures var (s, _) := Handle(store, Scheduler(true, Some(t)), Fire);
      s == Idle && Handle(store, s, Trigger(src)).1 == [Datagram(Payload(store[StartIndex].raw), src)]
  {
  }

  /** A capture no longer than the start index wedges the replayer: the flag stays up and nothing is ever sent. */
  lemma ShortCaptureWedges(store: seq<Packet>, src: Address, e: Event)
    requires |store| <= StartIndex
    ensures var (s, out) := Handle(store, Idle, Trigger(src));
      s == Scheduler(true, None) && out == [] && Handle(store, s, e) == (s, [])
  {
  }

  /**
   * A capture-time gap that goes backwards wedges the replayer: the packet
   * before it is sent, the reactor rejects the negative delay, and the flag
   * stays up with no timer, so every later event is a no-op.
   */
  lemma NegativeGapWedges(store: seq<Packet>, t: Timer, e: Event)
    requires t.index + 1 < |store| && Gap(store, t.index) < 0
    ensures var (s, out) := Handle(store, Scheduler(true, Some(t)), Fire);
      && out == [Datagram(Payload(store[t.index].raw), t.dest)]
      && s == Scheduler(true, None) && Handle(store, s, e) == (s, [])
  {
  }

  /** The datagrams a run to `dest` sends for packets `from` up to `to`. */
  function Expected(store: seq<Packet>, from: nat, to: nat, dest: Address): (r: seq<Datagram>)
    requires from <= to <= |store|
    ensures |r| == to - from
    ensures forall k :: 0 <= k < to - from ==> r[k] == Datagram(Payload(store[from + k].raw), dest)
  {
    seq(to - from, k requires 0 <= k < to - from => Datagram(Payload(store[from + k].raw), dest))
  }

  lemma ExpectedCons(store: seq<Packet>, from: nat, to: nat, dest: Address)
    requires from < to <= |store|
    ensures Expected(store, from, to, dest)
      == [Datagram(Payload(store[from].raw), dest)] + Expected(store, from + 1, to, dest)
  {
  }

  /** The gaps a run waits between those packets. */
  function ExpectedDelays(store: seq<Packet>, from: nat, to: nat): (r: seq<int>)
    requires from <= to < |store|
    ensures |r| == to - from
    ensures forall k :: 0 <= k < to - from ==> r[k] == Micros(store[from + k + 1]) - Micros(store[from + k])
  {
    seq(to - from, k requires 0 <= k < to - from => Micros(store[from + k + 1]) - Micros(store[from + k]))
  }

  /**
   * A whole run, driven by the reactor: the trigger from `src`, then each
   * pending timer firing in turn until none is left. Packets from
   * `StartIndex` on are sent to `src`, in capture order, each after the
   * capture-time gap to its predecessor: up to the end of the capture, where
   * the scheduler ends idle, or up to the first gap that goes backwards,
   * where it wedges. A chronological capture is always sent to the end.
   */
  method ReplayRun(store: seq<Packet>, src: Address) returns (sent: seq<Datagram>, delays: seq<int>, final: Scheduler)
    requires StartIndex < |store|
    ensures 1 <= |sent| <= |store| - StartIndex
    ensures sent == Expected(store, StartIndex, StartIndex + |sent|, src)
    ensures delays == ExpectedDelays(store, StartIndex, StartIndex + |sent| - 1)
    ensures forall k :: 0 <= k < |delays| ==> delays[k] >= 0
    ensures |sent| == |store| - StartIndex ==> final == Idle
    ensures |sent| < |store| - StartIndex ==>
      final == Scheduler(true, None) && Gap(store, StartIndex + |sent| - 1) < 0
    ensures Chronological(store) ==> sent == Expected(store, StartIndex, |store|, src) && final == Idle
  {
    var s;
    var first := Handle(store, Idle, Trigger(src));
    s, sent := first.0, first.1;
    delays := [];
    while s.pending.Some?
      invariant 1 <= |sent| <= |store| - StartIndex
      invariant |delays| == |sent| - 1
      invariant s.pending.Some? ==> s.started && s.pending.value.index == StartIndex + |sent| < |store|
      invariant s.pending.Some? ==> s.pending.value.dest == src
      invariant s.pending.Some? ==> s.pending.value.delay == Gap(store, StartIndex + |sent| - 1) >= 0
      invariant s.pending.None? && |sent| == |store| - StartIndex ==> s == Idle
      invariant s.pending.None? && |sent| < |store| - StartIndex ==>
        s == Scheduler(true, None) && Gap(store, StartIndex + |sent| - 1) < 0
      invariant sent == Expected(store, StartIndex, StartIndex + |sent|, src)
      invariant delays == ExpectedDelays(store, StartIndex, StartIndex + |delays|)
      invariant forall k :: 0 <= k < |delays| ==> delays[k] >= 0
      decreases |store| - |sent|
    {
      delays := delays + [s.pending.value.delay];
      var step := Handle(store, s, Fire);
      s := step.0;
      sent := sent + step.1;
    }
    final := s;
  }

  /**
   * The events' outcome from state `s`, in order: the final scheduler and
   * everything sent. Any sequence of events keeps a consistent scheduler
   * consistent, and sends at most one datagram per event.
   */
  function Run(store: seq<Packet>, s: Scheduler, events: seq<Event>): (r: (Scheduler, seq<Datagram>))
    ensures Consistent(store, s) ==> Consistent(store, r.0)
    ensures |r.1| <= |events|
    decreases |events|
  {
    if |events| == 0 then (s, [])
    else
      var (s1, out1) := Handle(store, s, events[0]);
      assert Consistent(store, s) ==> Consistent(store, s1) by {
        if Consistent(store, s) { HandleKeepsConsistent(store, s, events[0]); }
      }
      var (s2, out2) := Run(store, s1, events[1..]);
      (s2, out1 + out2)
  }

  function FireCount(events: seq<Event>): nat {
    if |events| == 0 then 0 else (if events[0] == Fire then 1 else 0) + FireCount(events[1..])
  }

  /**
   * Triggers that arrive during a run, from any sender, change nothing: with
   * packet `i` next for `dest`, any mix of events containing `f` timer
   * firings that stay within the capture, over gaps that do not go
   * backwards, sends exactly packets `i` to `i + f - 1`, to `dest`, and
   * leaves packet `i + f` next.
   */
  lemma {:induction false} RunIgnoresTriggers(store: seq<Packet>, d: int, i: nat, dest: Address, events: seq<Event>)
    requires StartIndex < i && i + FireCount(events) < |store|
    requires forall k :: i <= k < i + FireCount(events) ==> Gap(store, k) >= 0
    ensures var (s, out) := Run(store, Scheduler(true, Some(Timer(d, i, dest))), events);
      && out == Expected(store, i, i + FireCount(events), dest)
      && s.started && s.pending.Some?
      && s.pending.value.index == i + FireCount(events) && s.pending.value.dest == dest
    decreases |events|
  {
    var s := Scheduler(true, Some(Timer(d, i, dest)));
    if |events| > 0 {
      var (s1, out1) := Handle(store, s, events[0]);
      var rest := events[1..];
      if events[0] == Fire {
        var d' := Gap(store, i);
        assert s1 == Scheduler(true, Some(Timer(d', i + 1, dest)));
        RunIgnoresTriggers(store, d', i + 1, dest, rest);
        ExpectedCons(store, i, i + FireCount(events), dest);
      } else {
        assert s1 == s && out1 == [];
        RunIgnoresTriggers(store, d, i, dest, rest);
      }
    }
  }
}
