/** The live snapshot stream: what one connection emits, and the slots all connections share. */
module SseStream {
  import opened Wrappers

  datatype Config = Config(maxDuration: int, heartbeat: int, maxBytes: int)

  function Utf8Size(s: string): nat {
    if s == "" then 0 else
    (var c := s[0] as int; if c < 0x80 then 1 else if c < 0x800 then 2 else if c < 0x10000 then 3 else 4) + Utf8Size(s[1..])
  }

  /** One turn of the loop: the clock at the loop test, whether the client is gone, and the
      serialised snapshot with the clock after it was made. */
  datatype Poll = Poll(before: int, gone: bool, payload: string, now: int)

  datatype Event = Snapshot(payload: string, at: int) | Heartbeat(at: int)

  /** `last` is the last signature, `beat` the time of the last event or the start. */
  datatype State = State(last: Option<string>, beat: int, events: seq<Event>, open: bool)

  function Init(started: int): State { State(None, started, [], true) }

  predicate Fits(p: Poll, cfg: Config) { Utf8Size(p.payload) <= cfg.maxBytes }

  function Turn(s: State, cfg: Config, started: int, p: Poll): State {
    if !s.open then s
    else if p.before - started >= cfg.maxDuration || p.gone then s.(open := false)
    else if !Fits(p, cfg) then s
    else if s.last != Some(p.payload) then State(Some(p.payload), p.now, s.events + [Snapshot(p.payload, p.now)], true)
    else if p.now - s.beat >= cfg.heartbeat then State(s.last, p.now, s.events + [Heartbeat(p.now)], true)
    else s
  }

  function Run(cfg: Config, started: int, polls: seq<Poll>): State {
    if polls == [] then Init(started)
    else Turn(Run(cfg, started, polls[..|polls| - 1]), cfg, started, polls[|polls| - 1])
  }

  /** The generator. */
  method EventStream(cfg: Config, started: int, polls: seq<Poll>) returns (events: seq<Event>)
    ensures events == Run(cfg, started, polls).events
    ensures Shown(events) == NoRepeats(Fitting(Served(cfg, started, polls), cfg))
  {
    SnapshotsExactly(cfg, started, polls);
    var lastSignature: Option<string> := None;
    var lastHeartbeatAt := started;
    events := [];
    var i := 0;
    while i < |polls| && polls[i].before - started < cfg.maxDuration && !polls[i].gone
      invariant i <= |polls|
      invariant Run(cfg, started, polls[..i]) == State(lastSignature, lastHeartbeatAt, events, true)
    {
      assert polls[..i + 1][..i] == polls[..i];
      var p := polls[i];
      if Utf8Size(p.payload) > cfg.maxBytes {
      } else if lastSignature != Some(p.payload) {
        lastSignature := Some(p.payload);
        lastHeartbeatAt := p.now;
        events := events + [Snapshot(p.payload, p.now)];
      } else if p.now - lastHeartbeatAt >= cfg.heartbeat {
        lastHeartbeatAt := p.now;
        events := events + [Heartbeat(p.now)];
      }
      i := i + 1;
    }
    if i < |polls| {
      assert polls[..i + 1][..i] == polls[..i];
      StaysClosed(cfg, started, polls, i + 1);
    } else {
      assert polls[..i] == polls;
    }
  }

  lemma {:induction false} StaysClosed(cfg: Config, started: int, polls: seq<Poll>, i: nat)
    requires i <= |polls| && !Run(cfg, started, polls[..i]).open
    ensures Run(cfg, started, polls) == Run(cfg, started, polls[..i])
    decreases |polls| - i
  {
    if i == |polls| {
      assert polls[..i] == polls;
    } else {
      assert polls[..i + 1][..i] == polls[..i];
      StaysClosed(cfg, started, polls, i + 1);
    }
  }

  // ---------------------------------------------------------------- what a client sees

  /** The payload of the last snapshot event. */
  function LastSnapshot(events: seq<Event>): Option<string> {
    if events == [] then None
    else match events[|events| - 1]
      case Snapshot(p, _) => Some(p)
      case Heartbeat(_) => LastSnapshot(events[..|events| - 1])
  }

  /** The time of the event before position `i`, or the start. */
  function Before(events: seq<Event>, started: int, i: nat): int
    requires i <= |events|
  {
    if i == 0 then started else events[i - 1].at
  }

  /** A snapshot differs from the snapshot before it; a heartbeat comes at least an interval after
      the event before it and only once something was shown. */
  ghost predicate EventOk(cfg: Config, started: int, events: seq<Event>, i: nat)
    requires i < |events|
  {
    match events[i]
    case Snapshot(p, _) => LastSnapshot(events[..i]) != Some(p)
    case Heartbeat(at) => at - Before(events, started, i) >= cfg.heartbeat && LastSnapshot(events[..i]).Some?
  }

  ghost predicate StreamOk(cfg: Config, started: int, s: State) {
    && s.last == LastSnapshot(s.events)
    && s.beat == Before(s.events, started, |s.events|)
    && (forall i: nat :: i < |s.events| ==> EventOk(cfg, started, s.events, i))
  }

  lemma AppendKeeps(cfg: Config, started: int, events: seq<Event>, e: Event, i: nat)
    requires i < |events| && EventOk(cfg, started, events, i)
    ensures EventOk(cfg, started, events + [e], i)
  {
    assert (events + [e])[..i] == events[..i];
  }

  lemma TurnKeeps(cfg: Config, started: int, s: State, p: Poll)
    requires StreamOk(cfg, started, s)
    ensures StreamOk(cfg, started, Turn(s, cfg, started, p))
  {
    var s' := Turn(s, cfg, started, p);
    if s'.events != s.events {
      var e := s'.events[|s.events|];
      assert s'.events[..|s.events|] == s.events;
      forall i: nat | i < |s'.events| ensures EventOk(cfg, started, s'.events, i) {
        if i < |s.events| { AppendKeeps(cfg, started, s.events, e, i); }
      }
    }
  }

  lemma {:induction false} RunOk(cfg: Config, started: int, polls: seq<Poll>)
    ensures StreamOk(cfg, started, Run(cfg, started, polls))
  {
    if polls != [] {
      RunOk(cfg, started, polls[..|polls| - 1]);
      TurnKeeps(cfg, started, Run(cfg, started, polls[..|polls| - 1]), polls[|polls| - 1]);
    }
  }

  /** For every sequence of polls: consecutive snapshots differ, and heartbeats keep their distance. */
  lemma EventsWellSpaced(cfg: Config, started: int, polls: seq<Poll>, i: nat)
    requires i < |Run(cfg, started, polls).events|
    ensures EventOk(cfg, started, Run(cfg, started, polls).events, i)
  {
    RunOk(cfg, started, polls);
  }

  /** After a poll of an open stream: a payload that fits is what the client last saw, and the
      client heard something less than a heartbeat interval ago; a payload that does not fit
      changes nothing. */
  lemma ClientUpToDate(cfg: Config, started: int, polls: seq<Poll>)
    requires polls != [] && Run(cfg, started, polls).open
    ensures var s := Run(cfg, started, polls); var p := polls[|polls| - 1];
            if Fits(p, cfg) then
              && LastSnapshot(s.events) == Some(p.payload)
              && (cfg.heartbeat > 0 ==> p.now - Before(s.events, started, |s.events|) < cfg.heartbeat)
            else s == Run(cfg, started, polls[..|polls| - 1])
  {
    RunOk(cfg, started, polls);
  }

  // ---------------------------------------------------------------- which snapshots are sent

  /** The poll finds the time not up and the client there. */
  predicate InTime(cfg: Config, started: int, p: Poll) { p.before - started < cfg.maxDuration && !p.gone }

  ghost predicate AllInTime(cfg: Config, started: int, polls: seq<Poll>) {
    forall p :: p in polls ==> InTime(cfg, started, p)
  }

  lemma AllInTimeAppend(cfg: Config, started: int, polls: seq<Poll>, p: Poll)
    ensures AllInTime(cfg, started, polls + [p]) <==> AllInTime(cfg, started, polls) && InTime(cfg, started, p)
  {
    assert p in polls + [p];
    assert forall q :: q in polls ==> q in polls + [p];
  }

  /** A stream is open exactly while every poll found the time not up and the client there. */
  lemma {:induction false} OpenExactly(cfg: Config, started: int, polls: seq<Poll>)
    ensures Run(cfg, started, polls).open <==> AllInTime(cfg, started, polls)
  {
    if polls != [] {
      var earlier, last := polls[..|polls| - 1], polls[|polls| - 1];
      assert polls == earlier + [last];
      OpenExactly(cfg, started, earlier);
      AllInTimeAppend(cfg, started, earlier, last);
    }
  }

  /** The polls before the first one that ends the stream. */
  function Served(cfg: Config, started: int, polls: seq<Poll>): seq<Poll> {
    if polls == [] || !InTime(cfg, started, polls[0]) then [] else [polls[0]] + Served(cfg, started, polls[1..])
  }

  lemma {:induction false} ServedAppend(cfg: Config, started: int, polls: seq<Poll>, p: Poll)
    ensures Served(cfg, started, polls + [p]) ==
              if AllInTime(cfg, started, polls) && InTime(cfg, started, p)
              then Served(cfg, started, polls) + [p] else Served(cfg, started, polls)
  {
    if polls == [] {
      assert [p][1..] == [];
    } else {
      assert (polls + [p])[1..] == polls[1..] + [p] && polls == [polls[0]] + polls[1..];
      if InTime(cfg, started, polls[0]) { ServedAppend(cfg, started, polls[1..], p); }
    }
  }

  /** The payloads that fit. */
  function Fitting(polls: seq<Poll>, cfg: Config): seq<string> {
    if polls == [] then []
    else (if Utf8Size(polls[0].payload) <= cfg.maxBytes then [polls[0].payload] else []) + Fitting(polls[1..], cfg)
  }

  lemma {:induction false} FittingAppend(polls: seq<Poll>, cfg: Config, p: Poll)
    ensures Fitting(polls + [p], cfg) == Fitting(polls, cfg) + if Fits(p, cfg) then [p.payload] else []
  {
    if polls == [] {
      assert [] + [p] == [p] && [p][1..] == [];
    } else {
      assert (polls + [p])[1..] == polls[1..] + [p];
      FittingAppend(polls[1..], cfg, p);
    }
  }

  /** Without neighbours that are equal. */
  function NoRepeats(ps: seq<string>): seq<string> {
    if |ps| <= 1 then ps
    else if ps[0] == ps[1] then NoRepeats(ps[1..])
    else [ps[0]] + NoRepeats(ps[1..])
  }

  lemma {:induction false} NoRepeatsAppend(ps: seq<string>, p: string)
    ensures NoRepeats(ps + [p]) == NoRepeats(ps) + if ps != [] && ps[|ps| - 1] == p then [] else [p]
  {
    if |ps| == 1 {
      assert (ps + [p])[1..] == [p];
    } else if |ps| > 1 {
      assert (ps + [p])[1..] == ps[1..] + [p];
      NoRepeatsAppend(ps[1..], p);
    }
  }

  /** The payloads of the snapshot events. */
  function Shown(events: seq<Event>): seq<string> {
    if events == [] then []
    else Shown(events[..|events| - 1]) + if events[|events| - 1].Snapshot? then [events[|events| - 1].payload] else []
  }

  lemma ShownAppend(events: seq<Event>, e: Event)
    ensures Shown(events + [e]) == Shown(events) + if e.Snapshot? then [e.payload] else []
  {
    assert (events + [e])[..|events|] == events;
  }

  ghost predicate UpTo(s: State, payloads: seq<string>) {
    && Shown(s.events) == NoRepeats(payloads)
    && s.last == if payloads == [] then None else Some(payloads[|payloads| - 1])
  }

  lemma TurnShows(s: State, cfg: Config, started: int, p: Poll, payloads: seq<string>)
    requires UpTo(s, payloads)
    ensures UpTo(Turn(s, cfg, started, p),
                 if s.open && InTime(cfg, started, p) && Fits(p, cfg) then payloads + [p.payload] else payloads)
  {
    var s' := Turn(s, cfg, started, p);
    NoRepeatsAppend(payloads, p.payload);
    if s'.events != s.events { ShownAppend(s.events, s'.events[|s.events|]); }
  }

  lemma FittingServedAppend(cfg: Config, started: int, polls: seq<Poll>, p: Poll)
    ensures var before := Fitting(Served(cfg, started, polls), cfg);
            Fitting(Served(cfg, started, polls + [p]), cfg) ==
              if AllInTime(cfg, started, polls) && InTime(cfg, started, p) && Fits(p, cfg)
              then before + [p.payload] else before
  {
    ServedAppend(cfg, started, polls, p);
    FittingAppend(Served(cfg, started, polls), cfg, p);
  }

  lemma {:induction false} RunShows(cfg: Config, started: int, polls: seq<Poll>)
    ensures UpTo(Run(cfg, started, polls), Fitting(Served(cfg, started, polls), cfg))
  {
    if polls != [] {
      var earlier, p := polls[..|polls| - 1], polls[|polls| - 1];
      assert polls == earlier + [p];
      RunShows(cfg, started, earlier);
      OpenExactly(cfg, started, earlier);
      FittingServedAppend(cfg, started, earlier, p);
      TurnShows(Run(cfg, started, earlier), cfg, started, p, Fitting(Served(cfg, started, earlier), cfg));
    }
  }

  /** The snapshot events show the fitting payloads of the polls before the first one that ends the
      stream, all of them and in order, a payload that did not change shown once. */
  lemma SnapshotsExactly(cfg: Config, started: int, polls: seq<Poll>)
    ensures Shown(Run(cfg, started, polls).events) == NoRepeats(Fitting(Served(cfg, started, polls), cfg))
  {
    RunShows(cfg, started, polls);
  }

  function AtLeast(s: string, c: int): nat { if s == "" then 0 else (if s[0] as int >= c then 1 else 0) + AtLeast(s[1..], c) }

  /** A payload counts one byte a character, and one more for each character from 0x80, 0x800 and
      0x10000 on; so an ASCII payload fits exactly up to `maxBytes` characters. */
  lemma {:induction false} PayloadSize(s: string)
    ensures Utf8Size(s) == |s| + AtLeast(s, 0x80) + AtLeast(s, 0x800) + AtLeast(s, 0x10000)
    ensures (forall c :: c in s ==> c as int < 0x80) ==> Utf8Size(s) == |s|
  {
    if s != "" {
      PayloadSize(s[1..]);
      if forall c :: c in s ==> c as int < 0x80 {
        assert s[0] in s && forall c :: c in s[1..] ==> c in s;
      }
    }
  }

  // ---------------------------------------------------------------- slots

  /** `held` are the connections that took a slot and have not given it back; `abandoned` are those
      whose response was dropped before its generator ever started, so its `finally` never runs. */
  datatype Slots = Slots(capacity: nat, free: int, held: set<nat>, abandoned: set<nat>, rejected: set<nat>)

  datatype SlotEvent = Open(id: nat) | Finish(id: nat) | Abandon(id: nat)

  function Step(s: Slots, e: SlotEvent): Slots {
    match e
    case Open(id) =>
      if id in s.held || id in s.abandoned || id in s.rejected then s
      else if s.free > 0 then s.(free := s.free - 1, held := s.held + {id})
      else s.(rejected := s.rejected + {id})
    case Finish(id) => if id in s.held then s.(free := s.free + 1, held := s.held - {id}) else s
    case Abandon(id) => if id in s.held then s.(held := s.held - {id}, abandoned := s.abandoned + {id}) else s
  }

  /** `max(1, SSE_MAX_CONNECTIONS)` slots. */
  function Begin(maxConnections: int): Slots {
    var n: nat := if maxConnections < 1 then 1 else maxConnections;
    Slots(n, n, {}, {}, {})
  }

  function RunSlots(maxConnections: int, events: seq<SlotEvent>): Slots {
    if events == [] then Begin(maxConnections)
    else Step(RunSlots(maxConnections, events[..|events| - 1]), events[|events| - 1])
  }

  ghost predicate SlotsOk(s: Slots) {
    s.free >= 0 && s.free + |s.held| + |s.abandoned| == s.capacity && s.held !! s.abandoned
  }

  lemma Added(ids: set<nat>, id: nat)
    requires id !in ids
    ensures |ids + {id}| == |ids| + 1
  {}

  lemma Removed(ids: set<nat>, id: nat)
    requires id in ids
    ensures |ids - {id}| == |ids| - 1
  {}

  lemma OpenKeeps(s: Slots, id: nat)
    requires SlotsOk(s)
    ensures SlotsOk(Step(s, Open(id))) && Step(s, Open(id)).capacity == s.capacity
  {
    if id !in s.held { Added(s.held, id); }
  }

  lemma FinishKeeps(s: Slots, id: nat)
    requires SlotsOk(s)
    ensures SlotsOk(Step(s, Finish(id))) && Step(s, Finish(id)).capacity == s.capacity
  {
    if id in s.held { Removed(s.held, id); }
  }

  lemma AbandonKeeps(s: Slots, id: nat)
    requires SlotsOk(s)
    ensures SlotsOk(Step(s, Abandon(id))) && Step(s, Abandon(id)).capacity == s.capacity
  {
    if id in s.held {
      Removed(s.held, id);
      Added(s.abandoned, id);
    }
  }

  lemma SlotsStep(s: Slots, e: SlotEvent)
    requires SlotsOk(s)
    ensures SlotsOk(Step(s, e)) && Step(s, e).capacity == s.capacity
  {
    match e
    case Open(id) => OpenKeeps(s, id);
    case Finish(id) => FinishKeeps(s, id);
    case Abandon(id) => AbandonKeeps(s, id);
  }

  /** Free slots, open streams and abandoned responses always add up to the capacity.  So all slots
      are back once all streams have finished exactly when no response was abandoned. */
  lemma {:induction false} SlotsConserved(maxConnections: int, events: seq<SlotEvent>)
    ensures var s := RunSlots(maxConnections, events);
            && s.capacity == (if maxConnections < 1 then 1 else maxConnections) && SlotsOk(s)
            && (s.held == {} ==> (s.free == s.capacity <==> s.abandoned == {}))
  {
    if events != [] {
      SlotsConserved(maxConnections, events[..|events| - 1]);
      SlotsStep(RunSlots(maxConnections, events[..|events| - 1]), events[|events| - 1]);
    }
  }

  /** A new connection is refused exactly when every slot is held by an open stream or lost to an
      abandoned response. */
  lemma RefusedExactlyWhenFull(maxConnections: int, events: seq<SlotEvent>, id: nat)
    requires var s := RunSlots(maxConnections, events); id !in s.held && id !in s.abandoned && id !in s.rejected
    ensures var s := RunSlots(maxConnections, events); var s' := Step(s, Open(id));
            && (id in s'.rejected <==> |s.held| + |s.abandoned| == s.capacity)
            && (id in s'.held <==> |s.held| + |s.abandoned| < s.capacity)
  {
    SlotsConserved(maxConnections, events);
  }
}
