/**
  The rendezvous registry of `crates/tailsfer-rendezvous/src/main.rs`: a map of registrations
  that expire. Every command and every purge takes its timestamp while it holds the lock, so each
  is one atomic step and the times of the steps never decrease.
*/
module Rendezvous {
  import opened Wrappers
  import Utf8
  import Text

  const DEVICE_ID_HEX_LEN: nat := 32

  /** 60 seconds, in nanoseconds. */
  const REGISTRATION_TTL: nat := 60_000_000_000

  type Endpoint(==, !new)

  /** `str::parse::<SocketAddr>`. */
  type Parser = string -> Option<Endpoint>

  datatype Registration = Registration(endpoint: Endpoint, lastSeen: nat)

  type Registry = map<string, Registration>

  datatype Request =
    | Register(id: string, endpoint: string)
    | Heartbeat(id: string)
    | Lookup(id: string)
    | Ping
    | Invalid
    | Blank

  /** `HungUp`: the connection ends without an answer. `Silent`: nothing is answered. */
  datatype Reply =
    | Registered
    | InvalidDeviceId
    | HeartbeatOk
    | NotRegistered
    | Found(endpoint: Endpoint)
    | NotFound
    | Pong
    | InvalidCommand
    | Silent
    | HungUp

  function WordLength(s: string): (n: nat)
    ensures n <= |s|
  {
    if s == "" || Text.IsWhitespace(s[0]) then 0 else 1 + WordLength(s[1..])
  }

  /** `str::split_whitespace`. */
  function SplitWhitespace(s: string): (words: seq<string>)
    ensures forall w | w in words :: w != ""
    decreases |s|
  {
    if s == "" then []
    else if Text.IsWhitespace(s[0]) then SplitWhitespace(s[1..])
    else
      var n := WordLength(s);
      [s[..n]] + SplitWhitespace(s[n..])
  }

  function Understand(line: string): Request {
    var parts := SplitWhitespace(line);
    if parts == [] then Blank
    else if parts[0] == "REGISTER" && |parts| == 3 then Register(parts[1], parts[2])
    else if parts[0] == "HEARTBEAT" && |parts| == 2 then Heartbeat(parts[1])
    else if parts[0] == "LOOKUP" && |parts| == 2 then Lookup(parts[1])
    else if parts[0] == "PING" then Ping
    else Invalid
  }

  predicate ValidDeviceId(id: string) {
    var bytes := Utf8.Encode(id);
    |bytes| == DEVICE_ID_HEX_LEN && forall b | b in bytes :: 0x30 <= b <= 0x39 || 0x41 <= b <= 0x46 || 0x61 <= b <= 0x66
  }

  predicate Fresh(r: Registration, now: nat) {
    now - r.lastSeen < REGISTRATION_TTL
  }

  /** One command under the lock. */
  function Serve(parse: Parser, reg: Registry, request: Request, now: nat): (Registry, Reply) {
    match request
    case Register(id, text) =>
      (match parse(text)
       case None => (reg, HungUp)
       case Some(endpoint) =>
         if !ValidDeviceId(id) then (reg, InvalidDeviceId)
         else (reg[id := Registration(endpoint, now)], Registered))
    case Heartbeat(id) =>
      if id in reg then (reg[id := reg[id].(lastSeen := now)], HeartbeatOk) else (reg, NotRegistered)
    case Lookup(id) =>
      if id in reg && Fresh(reg[id], now) then (reg, Found(reg[id].endpoint)) else (reg, NotFound)
    case Ping => (reg, Pong)
    case Invalid => (reg, InvalidCommand)
    case Blank => (reg, Silent)
  }

  /** The background task: `retain` what has not expired. */
  function Purged(reg: Registry, now: nat): Registry {
    map id | id in reg && Fresh(reg[id], now) :: reg[id]
  }

  class Server {
    var registry: Registry
    const parse: Parser

    constructor (parse: Parser)
      ensures registry == map[] && this.parse == parse
    {
      registry := map[];
      this.parse := parse;
    }

    /** One line of `handle_connection`. */
    method HandleLine(line: string, now: nat) returns (reply: Reply)
      modifies this
      ensures (registry, reply) == Serve(parse, old(registry), Understand(line), now)
      ensures var words, reg := SplitWhitespace(line), old(registry);
        |words| == 2 && words[0] == "LOOKUP" ==>
          && registry == reg
          && reply == if words[1] in reg && now - reg[words[1]].lastSeen < 60_000_000_000
                      then Found(reg[words[1]].endpoint) else NotFound
      ensures var words, reg := SplitWhitespace(line), old(registry);
        |words| == 3 && words[0] == "REGISTER" && reply == Registered ==>
          parse(words[2]).Some? && registry == reg[words[1] := Registration(parse(words[2]).value, now)]
    {
      var parts := SplitWhitespace(line);
      if parts == [] {
        return Silent;
      }
      if parts[0] == "REGISTER" && |parts| == 3 {
        var deviceId := parts[1];
        var endpoint := parse(parts[2]);
        if endpoint.None? {
          return HungUp;
        }
        if !ValidDeviceId(deviceId) {
          return InvalidDeviceId;
        }
        registry := registry[deviceId := Registration(endpoint.value, now)];
        reply := Registered;
      } else if parts[0] == "HEARTBEAT" && |parts| == 2 {
        var deviceId := parts[1];
        if deviceId in registry {
          registry := registry[deviceId := registry[deviceId].(lastSeen := now)];
          reply := HeartbeatOk;
        } else {
          reply := NotRegistered;
        }
      } else if parts[0] == "LOOKUP" && |parts| == 2 {
        var deviceId := parts[1];
        if deviceId in registry && now - registry[deviceId].lastSeen < REGISTRATION_TTL {
          reply := Found(registry[deviceId].endpoint);
        } else {
          reply := NotFound;
        }
      } else if parts[0] == "PING" {
        reply := Pong;
      } else {
        reply := InvalidCommand;
      }
    }

    /** One tick of the cleanup task: every registration is visited, the expired ones go. */
    method Purge(now: nat)
      modifies this
      ensures registry == Purged(old(registry), now)
    {
      var unvisited := registry.Keys;
      while unvisited != {}
        invariant unvisited <= old(registry).Keys
        invariant forall id | id in old(registry) ::
          id in registry <==> id in unvisited || Fresh(old(registry)[id], now)
        invariant forall id | id in registry :: id in old(registry) && registry[id] == old(registry)[id]
        decreases unvisited
      {
        var id :| id in unvisited;
        unvisited := unvisited - {id};
        if now - registry[id].lastSeen >= REGISTRATION_TTL {
          registry := registry - {id};
        }
      }
    }
  }

  // ---- Histories

  /** What happens under the lock, in order. */
  datatype Event =
    | Command(request: Request, now: nat)
    | PurgeTick(now: nat)

  ghost predicate Monotone(events: seq<Event>) {
    forall i, j | 0 <= i < j < |events| :: events[i].now <= events[j].now
  }

  /** The registry after a history and the replies given in it. */
  function Play(parse: Parser, events: seq<Event>): (Registry, seq<Reply>) {
    if events == [] then (map[], [])
    else
      var (reg, replies) := Play(parse, events[..|events| - 1]);
      match events[|events| - 1]
      case Command(request, now) =>
        var (next, reply) := Serve(parse, reg, request, now);
        (next, replies + [reply])
      case PurgeTick(now) => (Purged(reg, now), replies)
  }

  /** The history without its purges. */
  function Commands(events: seq<Event>): (commands: seq<Event>)
    ensures forall e | e in commands :: e.Command? && e in events
  {
    if events == [] then []
    else
      var last := events[|events| - 1];
      Commands(events[..|events| - 1]) + (if last.Command? then [last] else [])
  }

  predicate AcceptedRegister(parse: Parser, request: Request, id: string) {
    request.Register? && request.id == id && ValidDeviceId(id) && parse(request.endpoint).Some?
  }

  /** When `id` was last touched: by an accepted REGISTER, or by a HEARTBEAT answered OK. */
  function LastTouch(parse: Parser, events: seq<Event>, id: string): Option<nat> {
    if events == [] then None
    else
      var most, last := events[..|events| - 1], events[|events| - 1];
      if last.Command? && (AcceptedRegister(parse, last.request, id)
                           || (last.request == Heartbeat(id)
                               && Serve(parse, Play(parse, most).0, last.request, last.now).1 == HeartbeatOk))
      then Some(last.now)
      else LastTouch(parse, most, id)
  }

  /** The endpoint of the last accepted REGISTER of `id`. */
  function LastEndpoint(parse: Parser, events: seq<Event>, id: string): Option<Endpoint> {
    if events == [] then None
    else
      var last := events[|events| - 1];
      if last.Command? && AcceptedRegister(parse, last.request, id) then parse(last.request.endpoint)
      else LastEndpoint(parse, events[..|events| - 1], id)
  }

  function LastTime(events: seq<Event>): nat {
    if events == [] then 0 else events[|events| - 1].now
  }

  /** The registry is the history, up to expiry. */
  lemma {:induction false} RegistryIsHistory(parse: Parser, events: seq<Event>, id: string)
    requires Monotone(events)
    ensures var reg := Play(parse, events).0;
      && (LastTouch(parse, events, id).Some? ==> LastTouch(parse, events, id).value <= LastTime(events))
      && (id in reg ==>
            LastTouch(parse, events, id) == Some(reg[id].lastSeen)
                && LastEndpoint(parse, events, id) == Some(reg[id].endpoint))
      && (id !in reg && LastTouch(parse, events, id).Some? ==>
            LastTime(events) - LastTouch(parse, events, id).value >= REGISTRATION_TTL)
  {
    if events != [] {
      var most := events[..|events| - 1];
      RegistryIsHistory(parse, most, id);
      assert LastTime(most) <= LastTime(events) by {
        if most != [] {
          assert most[|most| - 1] == events[|events| - 2];
        }
      }
    }
  }

  /** In every run, with any purge schedule, LOOKUP answers from the command history alone: it finds
      an endpoint exactly when the id was last touched less than 60 seconds ago, and then it is the
      endpoint of the last accepted REGISTER. */
  lemma LookupAgreesWithHistory(parse: Parser, events: seq<Event>, id: string, now: nat)
    requires Monotone(events) && LastTime(events) <= now
    ensures var touch := LastTouch(parse, events, id);
      var reply := Serve(parse, Play(parse, events).0, Lookup(id), now).1;
      if touch.Some? && now - touch.value < 60_000_000_000
      then LastEndpoint(parse, events, id).Some? && reply == Found(LastEndpoint(parse, events, id).value)
      else reply == NotFound
  {
    RegistryIsHistory(parse, events, id);
  }

  // ---- When purging can be observed

  /** Every HEARTBEAT for an id registered on a server that never purges comes before it expires. */
  ghost predicate NoLateHeartbeat(parse: Parser, commands: seq<Event>) {
    forall k | 0 <= k < |commands| && commands[k].Command? && commands[k].request.Heartbeat? ::
      var reg := Play(parse, commands[..k]).0;
      commands[k].request.id in reg ==> Fresh(reg[commands[k].request.id], commands[k].now)
  }

  /** No purge schedule changes any reply. */
  ghost predicate PurgeUnobservable(parse: Parser, commands: seq<Event>) {
    forall events | Monotone(events) && Commands(events) == commands ::
      Play(parse, events).1 == Play(parse, commands).1
  }

  /** Two registries that differ in expired entries only: `purged` has lost some of them. */
  ghost predicate SameUpToExpiry(purged: Registry, full: Registry, now: nat) {
    && (forall id | id in purged :: id in full && full[id] == purged[id])
    && (forall id | id in full && Fresh(full[id], now) :: id in purged)
  }

  lemma ServeStaysSame(parse: Parser, purged: Registry, full: Registry, before: nat, request: Request, now: nat)
    requires SameUpToExpiry(purged, full, before) && before <= now
    requires request.Heartbeat? && request.id in full ==> Fresh(full[request.id], now)
    ensures var (p, r) := Serve(parse, purged, request, now);
      var (f, q) := Serve(parse, full, request, now);
      r == q && SameUpToExpiry(p, f, now)
  {
  }

  lemma CommandsOfOneMore(events: seq<Event>, e: Event)
    ensures Commands(events + [e]) == Commands(events) + (if e.Command? then [e] else [])
  {
    assert (events + [e])[..|events|] == events;
  }

  lemma NoLateHeartbeatBefore(parse: Parser, commands: seq<Event>, e: Event)
    requires NoLateHeartbeat(parse, commands + [e])
    ensures NoLateHeartbeat(parse, commands)
    ensures e.Command? && e.request.Heartbeat? ==>
      var reg := Play(parse, commands).0;
      e.request.id in reg ==> Fresh(reg[e.request.id], e.now)
  {
    forall k | 0 <= k < |commands|
      ensures (commands + [e])[k] == commands[k] && (commands + [e])[..k] == commands[..k]
    {
    }
    assert (commands + [e])[|commands|] == e && (commands + [e])[..|commands|] == commands;
  }

  /** One more event: an ordinary step of both servers, or a purge of one. */
  lemma SimulationStep(parse: Parser, events: seq<Event>, commands: seq<Event>, before: nat, e: Event)
    requires SameUpToExpiry(Play(parse, events).0, Play(parse, commands).0, before) && before <= e.now
    requires Play(parse, events).1 == Play(parse, commands).1
    requires NoLateHeartbeat(parse, if e.Command? then commands + [e] else commands)
    ensures var commands' := commands + (if e.Command? then [e] else []);
      && SameUpToExpiry(Play(parse, events + [e]).0, Play(parse, commands').0, e.now)
      && Play(parse, events + [e]).1 == Play(parse, commands').1
  {
    PlayOneMore(parse, events, e);
    var p, f := Play(parse, events).0, Play(parse, commands).0;
    if e.Command? {
      NoLateHeartbeatBefore(parse, commands, e);
      PlayOneMore(parse, commands, e);
      hide Play, NoLateHeartbeat;
      ServeStaysSame(parse, p, f, before, e.request, e.now);
      hide Serve;
    } else {
      hide Play, NoLateHeartbeat;
      assert commands + [] == commands;
    }
  }

  lemma {:induction false} PurgeSimulates(parse: Parser, events: seq<Event>)
    requires Monotone(events) && NoLateHeartbeat(parse, Commands(events))
    ensures SameUpToExpiry(Play(parse, events).0, Play(parse, Commands(events)).0, LastTime(events))
    ensures Play(parse, events).1 == Play(parse, Commands(events)).1
  {
    hide NoLateHeartbeat;
    if events != [] {
      var most, last := events[..|events| - 1], events[|events| - 1];
      assert events == most + [last];
      assert LastTime(most) <= last.now by {
        if most != [] {
          assert most[|most| - 1] == events[|events| - 2];
        }
      }
      assert Monotone(most);
      hide Play, Commands, SameUpToExpiry, Monotone;
      CommandsOfOneMore(most, last);
      assert Commands(most) + [] == Commands(most);
      if last.Command? {
        NoLateHeartbeatBefore(parse, Commands(most), last);
      }
      PurgeSimulates(parse, most);
      SimulationStep(parse, most, Commands(most), LastTime(most), last);
    }
  }

  lemma {:induction false} RepliesOnlyGrow(parse: Parser, events: seq<Event>, more: seq<Event>)
    ensures Play(parse, events).1 <= Play(parse, events + more).1
  {
    if more == [] {
      assert events + more == events;
    } else {
      assert (events + more)[..|events + more| - 1] == events + more[..|more| - 1];
      RepliesOnlyGrow(parse, events, more[..|more| - 1]);
    }
  }

  lemma {:induction false} CommandsOfConcat(a: seq<Event>, b: seq<Event>)
    ensures Commands(a + b) == Commands(a) + Commands(b)
  {
    if b == [] {
      assert a + b == a;
    } else {
      assert (a + b)[..|a + b| - 1] == a + b[..|b| - 1];
      CommandsOfConcat(a, b[..|b| - 1]);
    }
  }

  lemma {:induction false} CommandsOfCommands(commands: seq<Event>)
    requires forall e | e in commands :: e.Command?
    ensures Commands(commands) == commands
  {
    if commands != [] {
      CommandsOfCommands(commands[..|commands| - 1]);
      assert commands[|commands| - 1] in commands;
    }
  }

  lemma InsertingKeepsOrder(commands: seq<Event>, k: nat, e: Event)
    requires Monotone(commands) && k < |commands| && e.now == commands[k].now
    ensures Monotone(commands[..k] + [e] + commands[k..])
  {
    var events := commands[..k] + [e] + commands[k..];
    forall i, j | 0 <= i < j < |events|
      ensures events[i].now <= events[j].now
    {
      assert i < k ==> events[i] == commands[i];
      assert i > k ==> events[i] == commands[i - 1];
      assert j < k ==> events[j] == commands[j];
      assert j > k ==> events[j] == commands[j - 1];
    }
  }

  lemma InsertingPurgeIsNoCommand(commands: seq<Event>, k: nat, now: nat)
    requires (forall e | e in commands :: e.Command?) && k < |commands|
    ensures Commands(commands[..k] + [PurgeTick(now)] + commands[k..]) == commands
  {
    hide Commands;
    var most, tick := commands[..k], PurgeTick(now);
    CommandsOfConcat(most + [tick], commands[k..]);
    CommandsOfConcat(most, [tick]);
    CommandsOfCommands(most);
    CommandsOfCommands(commands[k..]);
    CommandsOfTick(now);
    assert most + [] == most && commands == most + commands[k..];
  }

  lemma CommandsOfTick(now: nat)
    ensures Commands([PurgeTick(now)]) == []
  {
    assert [PurgeTick(now)][..0] == [];
  }

  lemma PlayOneMore(parse: Parser, events: seq<Event>, e: Event)
    ensures var (reg, replies) := Play(parse, events);
      Play(parse, events + [e]) == match e
        case Command(request, now) => (Serve(parse, reg, request, now).0, replies + [Serve(parse, reg, request, now).1])
        case PurgeTick(now) => (Purged(reg, now), replies)
  {
    assert (events + [e])[..|events|] == events;
  }

  /** A purge just before a late HEARTBEAT turns its answer from OK to ERROR. */
  lemma LateHeartbeatIsObserved(parse: Parser, commands: seq<Event>, k: nat)
    requires Monotone(commands) && (forall e | e in commands :: e.Command?)
    requires k < |commands| && commands[k].request.Heartbeat?
    requires var reg := Play(parse, commands[..k]).0; var id := commands[k].request.id;
      id in reg && !Fresh(reg[id], commands[k].now)
    ensures !PurgeUnobservable(parse, commands)
  {
    hide Play, Commands, Monotone;
    var most, late, tick, rest := commands[..k], commands[k], PurgeTick(commands[k].now), commands[k + 1..];
    var events := most + [tick] + commands[k..];
    InsertingKeepsOrder(commands, k, tick);
    InsertingPurgeIsNoCommand(commands, k, late.now);
    PlayOneMore(parse, most, tick);
    PlayOneMore(parse, most + [tick], late);
    PlayOneMore(parse, most, late);
    assert commands[k..] == [late] + rest;
    assert events == most + [tick] + [late] + rest && commands == most + [late] + rest;
    RepliesOnlyGrow(parse, most + [tick] + [late], rest);
    RepliesOnlyGrow(parse, most + [late], rest);
    var n := |Play(parse, most).1|;
    assert Play(parse, events).1[n] == NotRegistered && Play(parse, commands).1[n] == HeartbeatOk;
  }

  /** The purge task cannot be observed, on any schedule, if and only if no HEARTBEAT comes 60
      seconds or more after the id was last touched. */
  lemma PurgeUnobservableExactly(parse: Parser, commands: seq<Event>)
    requires Monotone(commands) && forall e | e in commands :: e.Command?
    ensures PurgeUnobservable(parse, commands) <==> NoLateHeartbeat(parse, commands)
  {
    if NoLateHeartbeat(parse, commands) {
      forall events | Monotone(events) && Commands(events) == commands
        ensures Play(parse, events).1 == Play(parse, commands).1
      {
        PurgeSimulates(parse, events);
      }
    } else {
      var k :| 0 <= k < |commands| && commands[k].request.Heartbeat?
        && commands[k].request.id in Play(parse, commands[..k]).0
        && !Fresh(Play(parse, commands[..k]).0[commands[k].request.id], commands[k].now);
      LateHeartbeatIsObserved(parse, commands, k);
    }
  }
}
