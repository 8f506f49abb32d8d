/** Connections, the session registry, admission control and discovery pausing
    (src/UringEngine/ClientHandlers.cpp, src/UringEngine/EngineCore.cpp).

    Every connection runs its own coroutine on the loop thread; they interleave at `co_await`. A step is
    what one coroutine does between two suspension points, so a schedule is any interleaving of accepts,
    frames, disconnects and closes. The kernel hands out a descriptor only while it is not open, so
    descriptors are reused after a close. The client loops catch `std::exception` only: anything else that
    a handler throws ends the detached coroutine on the spot, without unregistering or closing. */
module Connections {

  import opened Options

  /** `static_cast<uint64_t>(-1)`: the connection has not named a session yet. */
  const NO_SESSION: nat := 0xffff_ffff_ffff_ffff

  /** A connection serves frames; then it has left its loop and unregistered (its disconnect hook may be
      running). An abandoned one was ended by an exception that nobody caught, thrown by the hook or, when
      not a `std::exception`, by a handler; its descriptor is never closed. */
  datatype Phase = Serving | Leaving | Abandoned

  datatype Conn = Conn(fd: int, sid: nat, phase: Phase, text: bool)

  /** `maxClients == 0` means no limit; `hook` says a disconnect handler is set. */
  datatype Config = Config(maxClients: nat, hook: bool)

  /** `conns` holds the coroutine of every admitted descriptor that is not closed yet. */
  datatype State = State(
    sessions: map<nat, int>,
    conns: map<nat, Conn>,
    active: int,
    respond: bool,
    discovery: bool)

  function Init(discovery: bool): State {
    State(map[], map[], 0, true, discovery)
  }

  datatype Step =
    | Accept(c: nat, fd: int, text: bool)
    | Frame(c: nat, id: nat)
    | Leave(c: nat)
    | HandlerEscapes(c: nat)     // a handler throws something other than std::exception
    | HookThrows(c: nat)
    | Close(c: nat)

  predicate Enabled(cfg: Config, s: State, step: Step) {
    match step
    case Accept(c, fd, _) => c !in s.conns && forall d :: d in s.conns ==> s.conns[d].fd != fd
    case Frame(c, id) => c in s.conns && s.conns[c].phase == Serving && id <= NO_SESSION
    case Leave(c) => c in s.conns && s.conns[c].phase == Serving
    case HandlerEscapes(c) => c in s.conns && s.conns[c].phase == Serving
    case HookThrows(c) =>
      && c in s.conns && s.conns[c].phase == Leaving
      && cfg.hook && !s.conns[c].text && s.conns[c].sid != NO_SESSION
    case Close(c) => c in s.conns && s.conns[c].phase == Leaving
  }

  /** An accepted descriptor is either refused, which pauses discovery, or given a coroutine, whose first
      action is to count itself. */
  function AcceptClient(cfg: Config, s: State, c: nat, fd: int, text: bool): State {
    if cfg.maxClients > 0 && s.active >= cfg.maxClients then
      s.(respond := false, discovery := false)
    else
      s.(conns := s.conns[c := Conn(fd, NO_SESSION, Serving, text)], active := s.active + 1)
  }

  /** Session switch on a frame: id 0 is not unregistered when left. */
  function ReceiveFrame(s: State, c: nat, id: nat): State
    requires c in s.conns
  {
    var conn := s.conns[c];
    if id == conn.sid then s
    else
      var kept := if conn.sid != 0 then s.sessions - {conn.sid} else s.sessions;
      s.(sessions := kept[id := conn.fd], conns := s.conns[c := conn.(sid := id)])
  }

  function LeaveLoop(s: State, c: nat): State
    requires c in s.conns
  {
    var conn := s.conns[c];
    s.(sessions := if conn.sid != NO_SESSION then s.sessions - {conn.sid} else s.sessions,
       conns := s.conns[c := conn.(phase := Leaving)])
  }

  function CloseClient(cfg: Config, s: State, c: nat): State
    requires c in s.conns
  {
    var t := s.(conns := s.conns - {c}, active := s.active - 1);
    if cfg.maxClients > 0 && t.active < cfg.maxClients && !t.respond
    then t.(respond := true, discovery := true)
    else t
  }

  /** The coroutine is gone; registry, counter and descriptor stay as they are. */
  function Abandon(s: State, c: nat): State
    requires c in s.conns
  {
    s.(conns := s.conns[c := s.conns[c].(phase := Abandoned)])
  }

  function Apply(cfg: Config, s: State, step: Step): State
    requires Enabled(cfg, s, step)
  {
    match step
    case Accept(c, fd, text) => AcceptClient(cfg, s, c, fd, text)
    case Frame(c, id) => ReceiveFrame(s, c, id)
    case Leave(c) => LeaveLoop(s, c)
    case HandlerEscapes(c) => Abandon(s, c)
    case HookThrows(c) => Abandon(s, c)
    case Close(c) => CloseClient(cfg, s, c)
  }

  // ---------------------------------------------------------------- schedules

  ghost predicate Legal(cfg: Config, discovery: bool, steps: seq<Step>)
    decreases |steps|, 0
  {
    steps == [] ||
    (Legal(cfg, discovery, steps[..|steps| - 1]) &&
     Enabled(cfg, After(cfg, discovery, steps[..|steps| - 1]), steps[|steps| - 1]))
  }

  ghost function After(cfg: Config, discovery: bool, steps: seq<Step>): State
    requires Legal(cfg, discovery, steps)
    decreases |steps|, 1
  {
    if steps == [] then Init(discovery)
    else Apply(cfg, After(cfg, discovery, steps[..|steps| - 1]), steps[|steps| - 1])
  }

  lemma LegalSnoc(cfg: Config, discovery: bool, steps: seq<Step>, step: Step)
    requires Legal(cfg, discovery, steps) && Enabled(cfg, After(cfg, discovery, steps), step)
    ensures Legal(cfg, discovery, steps + [step])
    ensures After(cfg, discovery, steps + [step]) == Apply(cfg, After(cfg, discovery, steps), step)
  {
    var all := steps + [step];
    var n := |steps|;
    assert |all| == n + 1 && all != [];
    assert all[n] == step;
    assert all[..n] == steps;
  }

  // ---------------------------------------------------------------- invariant

  ghost predicate Holds(s: State, c: nat, id: nat) {
    c in s.conns && s.conns[c].phase == Serving && s.conns[c].sid == id
  }

  ghost predicate DistinctFds(s: State) {
    forall c, d :: c in s.conns && d in s.conns && s.conns[c].fd == s.conns[d].fd ==> c == d
  }

  /** The entry of `id`, if any, names an open serving connection whose current session is `id`. */
  ghost predicate SoundAt(s: State, id: nat) {
    id in s.sessions ==> exists c :: Holds(s, c, id) && s.conns[c].fd == s.sessions[id]
  }

  ghost predicate Regular(id: nat) { id != 0 && id != NO_SESSION }

  ghost predicate CountInv(cfg: Config, s: State) {
    && s.active == |s.conns|
    && (cfg.maxClients > 0 ==> s.active <= cfg.maxClients)
    && (!s.respond ==> cfg.maxClients > 0 && s.active == cfg.maxClients && !s.discovery)
  }

  ghost predicate Inv(cfg: Config, s: State) { DistinctFds(s) && CountInv(cfg, s) }

  /** The step ends the very connection the entry of `id` points to, and nobody removes the entry. */
  ghost predicate Orphans(s: State, step: Step, id: nat) {
    && step.HandlerEscapes? && step.c in s.conns
    && id in s.sessions && s.sessions[id] == s.conns[step.c].fd
  }

  lemma FrameKeepsSound(s: State, c: nat, id: nat, k: nat)
    requires c in s.conns && s.conns[c].phase == Serving
    requires Regular(k) && SoundAt(s, k)
    ensures SoundAt(ReceiveFrame(s, c, id), k)
  {
    var t := ReceiveFrame(s, c, id);
    if id != s.conns[c].sid && k in t.sessions {
      if k == id {
        assert Holds(t, c, k);
      } else {
        var d :| Holds(s, d, k) && s.conns[d].fd == s.sessions[k];
        assert d != c;
        assert Holds(t, d, k);
      }
    }
  }

  lemma LeaveKeepsSound(s: State, c: nat, k: nat)
    requires c in s.conns && s.conns[c].phase == Serving
    requires Regular(k) && SoundAt(s, k)
    ensures SoundAt(LeaveLoop(s, c), k)
  {
    var t := LeaveLoop(s, c);
    if k in t.sessions {
      var d :| Holds(s, d, k) && s.conns[d].fd == s.sessions[k];
      assert d != c;
      assert Holds(t, d, k);
    }
  }

  /** Steps that touch neither the registry nor the connection the entry names. */
  lemma OtherStepKeepsSound(cfg: Config, s: State, step: Step, k: nat)
    requires Enabled(cfg, s, step) && !step.Frame? && !step.Leave? && !Orphans(s, step, k)
    requires SoundAt(s, k)
    ensures SoundAt(Apply(cfg, s, step), k)
  {
    var t := Apply(cfg, s, step);
    if k in t.sessions {
      var d :| Holds(s, d, k) && s.conns[d].fd == s.sessions[k];
      assert Holds(t, d, k);
    }
  }

  lemma MapSizes(m: map<nat, Conn>, c: nat, conn: Conn)
    ensures c in m ==> |m[c := conn]| == |m| && |m - {c}| == |m| - 1
    ensures c !in m ==> |m[c := conn]| == |m| + 1
  {
    if c in m {
      assert m[c := conn].Keys == m.Keys;
      assert |m[c := conn].Keys| == |m[c := conn]|;
      assert (m - {c}).Keys == m.Keys - {c};
      assert |(m - {c}).Keys| == |m - {c}|;
    }
  }

  lemma StepKeepsCounts(cfg: Config, s: State, step: Step)
    requires CountInv(cfg, s) && Enabled(cfg, s, step)
    ensures CountInv(cfg, Apply(cfg, s, step))
  {
    match step
    case Accept(c, fd, text) => MapSizes(s.conns, c, Conn(fd, NO_SESSION, Serving, text));
    case Frame(c, id) => MapSizes(s.conns, c, s.conns[c].(sid := id));
    case Leave(c) => MapSizes(s.conns, c, s.conns[c].(phase := Leaving));
    case HandlerEscapes(c) => MapSizes(s.conns, c, s.conns[c].(phase := Abandoned));
    case HookThrows(c) => MapSizes(s.conns, c, s.conns[c].(phase := Abandoned));
    case Close(c) => MapSizes(s.conns, c, s.conns[c]);
  }

  lemma StepKeepsFds(cfg: Config, s: State, step: Step)
    requires DistinctFds(s) && Enabled(cfg, s, step)
    ensures DistinctFds(Apply(cfg, s, step))
  {
    var t := Apply(cfg, s, step);
    assert forall c :: c in t.conns ==>
      if c in s.conns then t.conns[c].fd == s.conns[c].fd else step.Accept? && t.conns[c].fd == step.fd;
  }

  lemma StepKeepsInv(cfg: Config, s: State, step: Step)
    requires Inv(cfg, s) && Enabled(cfg, s, step)
    ensures Inv(cfg, Apply(cfg, s, step))
  {
    StepKeepsCounts(cfg, s, step);
    StepKeepsFds(cfg, s, step);
  }

  /** For a regular id a step keeps the entry sound if and only if it does not orphan it. */
  lemma StepKeepsSoundExactly(cfg: Config, s: State, step: Step, k: nat)
    requires DistinctFds(s) && Enabled(cfg, s, step) && Regular(k) && SoundAt(s, k)
    ensures SoundAt(Apply(cfg, s, step), k) <==> !Orphans(s, step, k)
  {
    if Orphans(s, step, k) {
      OrphanIsUnsound(cfg, s, step, k);
    } else {
      match step
      case Frame(c, id) => FrameKeepsSound(s, c, id, k);
      case Leave(c) => LeaveKeepsSound(s, c, k);
      case _ => OtherStepKeepsSound(cfg, s, step, k);
    }
  }

  lemma OrphanIsUnsound(cfg: Config, s: State, step: Step, k: nat)
    requires DistinctFds(s) && Enabled(cfg, s, step) && Orphans(s, step, k)
    ensures !SoundAt(Apply(cfg, s, step), k)
  {
    var t := Apply(cfg, s, step);
    forall d | Holds(t, d, k) ensures t.conns[d].fd != t.sessions[k] {
      assert d in s.conns && d != step.c;
    }
  }

  lemma {:induction false} EveryScheduleKeepsInv(cfg: Config, discovery: bool, steps: seq<Step>)
    requires Legal(cfg, discovery, steps)
    ensures Inv(cfg, After(cfg, discovery, steps))
    decreases |steps|
  {
    if steps != [] {
      EveryScheduleKeepsInv(cfg, discovery, steps[..|steps| - 1]);
      StepKeepsInv(cfg, After(cfg, discovery, steps[..|steps| - 1]), steps[|steps| - 1]);
    }
  }

  // ---------------------------------------------------------------- registry soundness

  ghost predicate AlwaysSound(cfg: Config, discovery: bool, steps: seq<Step>, id: nat)
    requires Legal(cfg, discovery, steps)
    decreases |steps|
  {
    SoundAt(After(cfg, discovery, steps), id) && (steps != [] ==> AlwaysSound(cfg, discovery, steps[..|steps| - 1], id))
  }

  /** No handler exception other than a `std::exception` ever ends the connection registered for `id`. */
  ghost predicate NeverOrphaned(cfg: Config, discovery: bool, steps: seq<Step>, id: nat)
    requires Legal(cfg, discovery, steps)
    decreases |steps|
  {
    steps == [] ||
    (var before := steps[..|steps| - 1];
     NeverOrphaned(cfg, discovery, before, id) && !Orphans(After(cfg, discovery, before), steps[|steps| - 1], id))
  }

  /** In every run, with descriptors reused and connections sharing an id: the entry of an id other than 0
      and 2^64-1 points at all times to an open, serving connection whose current id is that key, if and
      only if no exception outside `std::exception` ends the connection that is registered for it. */
  lemma {:induction false} SoundExactlyIfNeverOrphaned(cfg: Config, discovery: bool, steps: seq<Step>, id: nat)
    requires Legal(cfg, discovery, steps) && Regular(id)
    ensures AlwaysSound(cfg, discovery, steps, id) <==> NeverOrphaned(cfg, discovery, steps, id)
    decreases |steps|
  {
    if steps != [] {
      var before := steps[..|steps| - 1];
      SoundExactlyIfNeverOrphaned(cfg, discovery, before, id);
      EveryScheduleKeepsInv(cfg, discovery, before);
      if AlwaysSound(cfg, discovery, before, id) {
        StepKeepsSoundExactly(cfg, After(cfg, discovery, before), steps[|steps| - 1], id);
      }
    }
  }

  /** Two such entries never point to the same descriptor, so a connection owns at most one. */
  lemma RegistrySound(cfg: Config, discovery: bool, steps: seq<Step>, i: nat, k: nat)
    requires Legal(cfg, discovery, steps) && Regular(i) && Regular(k)
    requires NeverOrphaned(cfg, discovery, steps, i) && NeverOrphaned(cfg, discovery, steps, k)
    ensures var s := After(cfg, discovery, steps);
            && SoundAt(s, i) && SoundAt(s, k)
            && (i in s.sessions && k in s.sessions && s.sessions[i] == s.sessions[k] ==> i == k)
  {
    EveryScheduleKeepsInv(cfg, discovery, steps);
    SoundExactlyIfNeverOrphaned(cfg, discovery, steps, i);
    SoundExactlyIfNeverOrphaned(cfg, discovery, steps, k);
    var s := After(cfg, discovery, steps);
    if i in s.sessions && k in s.sessions {
      var c :| Holds(s, c, i) && s.conns[c].fd == s.sessions[i];
      var d :| Holds(s, d, k) && s.conns[d].fd == s.sessions[k];
    }
  }

  /** The excluded ids are real exceptions: a connection that uses id 0 and then another leaves the entry of
      0 behind, and one that disconnects while on id 2^64-1 leaves that entry behind. So soundness of the
      entry of `id` over all runs without orphaning holds exactly for the regular ids. */
  lemma SoundExactlyForRegularIds(cfg: Config, id: nat)
    requires id <= NO_SESSION
    ensures (forall discovery, steps :: Legal(cfg, discovery, steps) && NeverOrphaned(cfg, discovery, steps, id)
               ==> SoundAt(After(cfg, discovery, steps), id))
            <==> Regular(id)
  {
    if Regular(id) {
      forall discovery, steps | Legal(cfg, discovery, steps) && NeverOrphaned(cfg, discovery, steps, id)
        ensures SoundAt(After(cfg, discovery, steps), id)
      {
        RegistrySound(cfg, discovery, steps, id, id);
      }
    } else if id == 0 {
      var steps := ZeroStaysBehind(cfg);
    } else {
      var steps := SentinelStaysBehind(cfg);
    }
  }

  lemma {:induction false} NothingEscapes(cfg: Config, discovery: bool, steps: seq<Step>, id: nat)
    requires Legal(cfg, discovery, steps) && forall i :: 0 <= i < |steps| ==> !steps[i].HandlerEscapes?
    ensures NeverOrphaned(cfg, discovery, steps, id)
    decreases |steps|
  {
    if steps != [] { NothingEscapes(cfg, discovery, steps[..|steps| - 1], id); }
  }

  /** The orphaned entry in a run: one client, whose handler throws an `int`, say. Its descriptor stays open,
      so the entry stays until another connection names the id. */
  lemma EscapeLeavesEntry(cfg: Config, id: nat) returns (steps: seq<Step>)
    requires Regular(id) && id < NO_SESSION
    ensures Legal(cfg, true, steps) && !SoundAt(After(cfg, true, steps), id)
    ensures id in After(cfg, true, steps).sessions && After(cfg, true, steps).sessions[id] == 5
    ensures AbandonedAt(After(cfg, true, steps), 1, 5)
  {
    steps := OneClient(cfg, id);
    LegalSnoc(cfg, true, steps, HandlerEscapes(1));
    steps := steps + [HandlerEscapes(1)];
  }

  lemma OneClient(cfg: Config, id: nat) returns (steps: seq<Step>)
    requires id < NO_SESSION
    ensures Legal(cfg, true, steps)
    ensures forall i :: 0 <= i < |steps| ==> !steps[i].HandlerEscapes?
    ensures After(cfg, true, steps) == State(map[id := 5], map[1 := Conn(5, id, Serving, false)], 1, true, true)
  {
    LegalSnoc(cfg, true, [], Accept(1, 5, false));
    steps := [] + [Accept(1, 5, false)];
    LegalSnoc(cfg, true, steps, Frame(1, id));
    steps := steps + [Frame(1, id)];
  }

  lemma ZeroStaysBehind(cfg: Config) returns (steps: seq<Step>)
    ensures Legal(cfg, true, steps) && NeverOrphaned(cfg, true, steps, 0)
    ensures !SoundAt(After(cfg, true, steps), 0)
  {
    steps := OneClient(cfg, 0);
    LegalSnoc(cfg, true, steps, Frame(1, 9));
    steps := steps + [Frame(1, 9)];
    NothingEscapes(cfg, true, steps, 0);
  }

  lemma SentinelStaysBehind(cfg: Config) returns (steps: seq<Step>)
    ensures Legal(cfg, true, steps) && NeverOrphaned(cfg, true, steps, NO_SESSION)
    ensures !SoundAt(After(cfg, true, steps), NO_SESSION)
  {
    steps := OneClient(cfg, 9);
    LegalSnoc(cfg, true, steps, Frame(1, NO_SESSION));
    steps := steps + [Frame(1, NO_SESSION)];
    LegalSnoc(cfg, true, steps, Leave(1));
    steps := steps + [Leave(1)];
    NothingEscapes(cfg, true, steps, NO_SESSION);
  }

  // ---------------------------------------------------------------- the registry, told from the run

  /** The session connection `c` is on: the last id it named. */
  ghost function LastNamed(steps: seq<Step>, c: nat): nat
    decreases |steps|
  {
    if steps == [] then NO_SESSION
    else
      match steps[|steps| - 1]
      case Frame(d, id) => if d == c then id else LastNamed(steps[..|steps| - 1], c)
      case Accept(d, _, _) => if d == c then NO_SESSION else LastNamed(steps[..|steps| - 1], c)
      case _ => LastNamed(steps[..|steps| - 1], c)
  }

  ghost predicate NamesAreCurrent(s: State, steps: seq<Step>) {
    forall c :: c in s.conns ==> s.conns[c].sid == LastNamed(steps, c)
  }

  lemma {:induction false} SessionIsLastNamed(cfg: Config, discovery: bool, steps: seq<Step>)
    requires Legal(cfg, discovery, steps)
    ensures NamesAreCurrent(After(cfg, discovery, steps), steps)
    decreases |steps|
  {
    if steps != [] { SessionIsLastNamed(cfg, discovery, steps[..|steps| - 1]); }
  }

  /** Which connection last switched to `id`, with its descriptor, unless a connection on `id` has left it
      since: by switching away, which does not count for id 0, or by leaving, which does not count for 2^64-1. */
  ghost function LastSwitch(cfg: Config, discovery: bool, steps: seq<Step>, id: nat): Option<int>
    requires Legal(cfg, discovery, steps)
    decreases |steps|
  {
    if steps == [] then None
    else
      var before := steps[..|steps| - 1];
      var earlier := LastSwitch(cfg, discovery, before, id);
      var conns := After(cfg, discovery, before).conns;
      match steps[|steps| - 1]
      case Frame(c, to) =>
        var from := LastNamed(before, c);
        if c !in conns || to == from then earlier
        else if to == id then Some(conns[c].fd)
        else if from == id && id != 0 then None
        else earlier
      case Leave(c) => if LastNamed(before, c) == id && id != NO_SESSION then None else earlier
      case _ => earlier
  }

  ghost function Entry(s: State, id: nat): Option<int> {
    if id in s.sessions then Some(s.sessions[id]) else None
  }

  lemma StepMovesEntry(cfg: Config, s: State, step: Step, id: nat)
    requires Enabled(cfg, s, step)
    ensures Entry(Apply(cfg, s, step), id) ==
            match step
            case Frame(c, to) =>
              var from := s.conns[c].sid;
              if to == from then Entry(s, id)
              else if to == id then Some(s.conns[c].fd)
              else if from == id && id != 0 then None
              else Entry(s, id)
            case Leave(c) => if s.conns[c].sid == id && id != NO_SESSION then None else Entry(s, id)
            case _ => Entry(s, id)
  {
  }

  /** For every id and every run, special ids, sharing and orphans included: the registry maps an id to the
      connection that last switched to it and has not been unregistered since. In particular a frame that
      repeats its connection's session changes nothing, so an entry is not taken back from a newer client. */
  lemma {:induction false} RegistryIsLastSwitch(cfg: Config, discovery: bool, steps: seq<Step>, id: nat)
    requires Legal(cfg, discovery, steps)
    ensures Entry(After(cfg, discovery, steps), id) == LastSwitch(cfg, discovery, steps, id)
    decreases |steps|
  {
    if steps != [] {
      RegistryIsLastSwitch(cfg, discovery, steps[..|steps| - 1], id);
      SessionIsLastNamed(cfg, discovery, steps[..|steps| - 1]);
      StepMovesEntry(cfg, After(cfg, discovery, steps[..|steps| - 1]), steps[|steps| - 1], id);
    }
  }

  /** A frame on the connection's own session leaves the whole state as it is. */
  lemma RepeatedSessionChangesNothing(cfg: Config, discovery: bool, steps: seq<Step>, c: nat)
    requires Legal(cfg, discovery, steps) && Enabled(cfg, After(cfg, discovery, steps), Frame(c, LastNamed(steps, c)))
    ensures Apply(cfg, After(cfg, discovery, steps), Frame(c, LastNamed(steps, c))) == After(cfg, discovery, steps)
  {
    SessionIsLastNamed(cfg, discovery, steps);
  }

  // ---------------------------------------------------------------- registry completeness

  ghost predicate AtMostOneHolder(s: State, id: nat) {
    forall c, d :: Holds(s, c, id) && Holds(s, d, id) ==> c == d
  }

  /** At no point of the run do two serving connections hold `id` at once. */
  ghost predicate NeverShared(cfg: Config, discovery: bool, steps: seq<Step>, id: nat)
    requires Legal(cfg, discovery, steps)
    decreases |steps|
  {
    && AtMostOneHolder(After(cfg, discovery, steps), id)
    && (steps != [] ==> NeverShared(cfg, discovery, steps[..|steps| - 1], id))
  }

  /** Every holder of `id` is reachable through the registry. */
  ghost predicate CompleteAt(s: State, id: nat) {
    forall c :: Holds(s, c, id) ==> id in s.sessions && s.sessions[id] == s.conns[c].fd
  }

  lemma StepKeepsComplete(cfg: Config, s: State, step: Step, id: nat)
    requires Enabled(cfg, s, step) && Regular(id)
    requires CompleteAt(s, id) && AtMostOneHolder(s, id) && AtMostOneHolder(Apply(cfg, s, step), id)
    ensures CompleteAt(Apply(cfg, s, step), id)
  {
    var t := Apply(cfg, s, step);
    forall d | Holds(t, d, id) ensures id in t.sessions && t.sessions[id] == t.conns[d].fd {
      match step
      case Accept(c, _, _) => assert Holds(s, d, id);
      case Frame(c, new_id) =>
        if d == c && new_id != s.conns[c].sid {
          assert new_id == id;
        } else {
          assert Holds(s, d, id);
          assert Holds(s, c, id) ==> c == d;
          if c != d && new_id == id && new_id != s.conns[c].sid { assert Holds(t, c, id); }
        }
      case Leave(c) =>
        assert Holds(s, d, id) && d != c;
        assert !Holds(s, c, id);
      case HandlerEscapes(c) => assert Holds(s, d, id);
      case HookThrows(c) => assert Holds(s, d, id);
      case Close(c) => assert Holds(s, d, id);
    }
  }

  ghost predicate AlwaysComplete(cfg: Config, discovery: bool, steps: seq<Step>, id: nat)
    requires Legal(cfg, discovery, steps)
    decreases |steps|
  {
    && CompleteAt(After(cfg, discovery, steps), id)
    && (steps != [] ==> AlwaysComplete(cfg, discovery, steps[..|steps| - 1], id))
  }

  /** Completeness, id by id: every serving connection on `id` is at all times the one its entry names, if
      and only if `id` is never shared. */
  lemma {:induction false} CompleteExactlyIfNeverShared(cfg: Config, discovery: bool, steps: seq<Step>, id: nat)
    requires Legal(cfg, discovery, steps) && Regular(id)
    ensures AlwaysComplete(cfg, discovery, steps, id) <==> NeverShared(cfg, discovery, steps, id)
    decreases |steps|
  {
    EveryScheduleKeepsInv(cfg, discovery, steps);
    var s := After(cfg, discovery, steps);
    assert CompleteAt(s, id) ==> AtMostOneHolder(s, id);
    if steps != [] {
      var before := steps[..|steps| - 1];
      CompleteExactlyIfNeverShared(cfg, discovery, before, id);
      if NeverShared(cfg, discovery, steps, id) {
        StepKeepsComplete(cfg, After(cfg, discovery, before), steps[|steps| - 1], id);
      }
    }
  }

  /** Hence, as long as `id` is neither shared nor orphaned, its entry exists exactly while a serving
      connection is on it, and names that connection's descriptor. */
  lemma RegistryCompleteAt(cfg: Config, discovery: bool, steps: seq<Step>, id: nat)
    requires Legal(cfg, discovery, steps) && Regular(id)
    requires NeverShared(cfg, discovery, steps, id) && NeverOrphaned(cfg, discovery, steps, id)
    ensures var s := After(cfg, discovery, steps);
            && CompleteAt(s, id)
            && (id in s.sessions <==> exists c :: Holds(s, c, id))
  {
    RegistrySound(cfg, discovery, steps, id, id);
    CompleteExactlyIfNeverShared(cfg, discovery, steps, id);
  }

  /** The ids serving connections have named. */
  ghost predicate Named(s: State, id: nat) {
    id != NO_SESSION && exists c :: Holds(s, c, id)
  }

  lemma {:induction false} OnlyRegularKeys(cfg: Config, discovery: bool, steps: seq<Step>)
    requires Legal(cfg, discovery, steps)
    requires forall i :: 0 <= i < |steps| && steps[i].Frame? ==> Regular(steps[i].id)
    ensures forall id :: id in After(cfg, discovery, steps).sessions ==> Regular(id)
    ensures forall c :: c in After(cfg, discovery, steps).conns ==> After(cfg, discovery, steps).conns[c].sid != 0
    decreases |steps|
  {
    if steps != [] {
      OnlyRegularKeys(cfg, discovery, steps[..|steps| - 1]);
    }
  }

  /** Completeness of the whole registry: if no frame uses id 0 or 2^64-1 and no id is shared or orphaned, the
      registry is exactly the map from each named session to the descriptor of the connection on it. */
  lemma RegistryExact(cfg: Config, discovery: bool, steps: seq<Step>)
    requires Legal(cfg, discovery, steps)
    requires forall i :: 0 <= i < |steps| && steps[i].Frame? ==> Regular(steps[i].id)
    requires forall id :: Regular(id) ==> NeverShared(cfg, discovery, steps, id) && NeverOrphaned(cfg, discovery, steps, id)
    ensures var s := After(cfg, discovery, steps);
            && (forall id :: id in s.sessions <==> Named(s, id))
            && (forall c, id :: id != NO_SESSION && Holds(s, c, id) ==> id in s.sessions && s.sessions[id] == s.conns[c].fd)
  {
    var s := After(cfg, discovery, steps);
    OnlyRegularKeys(cfg, discovery, steps);
    forall id: nat ensures id in s.sessions <==> Named(s, id) {
      if Regular(id) { RegistryCompleteAt(cfg, discovery, steps, id); }
    }
    forall c, id: nat | id != NO_SESSION && Holds(s, c, id)
      ensures id in s.sessions && s.sessions[id] == s.conns[c].fd
    {
      RegistryCompleteAt(cfg, discovery, steps, id);
    }
  }

  /** Sharing is what breaks it: two connections on one id, the first to leave takes the entry along
      and the other, still serving, can no longer be reached. */
  lemma SharingLosesTheEntry(cfg: Config, id: nat) returns (steps: seq<Step>)
    requires Regular(id) && id < NO_SESSION && (cfg.maxClients == 0 || cfg.maxClients >= 2)
    ensures Legal(cfg, true, steps)
    ensures var s := After(cfg, true, steps);
            id !in s.sessions && Holds(s, 2, id)
  {
    steps := OneClient(cfg, id);
    LegalSnoc(cfg, true, steps, Accept(2, 6, false));
    steps := steps + [Accept(2, 6, false)];
    LegalSnoc(cfg, true, steps, Frame(2, id));
    steps := steps + [Frame(2, id)];
    LegalSnoc(cfg, true, steps, Leave(1));
    steps := steps + [Leave(1)];
  }

  // ---------------------------------------------------------------- admission and discovery

  /** At every suspension point, over any number of accept loops and with throwing handlers and hooks, the
      counter equals the number of admitted descriptors not yet closed and respects the limit. */
  lemma {:induction false} AdmissionControlled(cfg: Config, discovery: bool, steps: seq<Step>)
    requires Legal(cfg, discovery, steps)
    ensures var s := After(cfg, discovery, steps);
            && s.active == |s.conns|
            && (cfg.maxClients > 0 ==> |s.conns| <= cfg.maxClients)
            && (forall c, d :: c in s.conns && d in s.conns && c != d ==> s.conns[c].fd != s.conns[d].fd)
  {
    EveryScheduleKeepsInv(cfg, discovery, steps);
  }

  /** Discovery responses are paused only while the server is exactly full, so that closing any client
      restores them. */
  lemma PausedOnlyWhileFull(cfg: Config, discovery: bool, steps: seq<Step>)
    requires Legal(cfg, discovery, steps)
    ensures var s := After(cfg, discovery, steps);
            && (!s.respond ==> cfg.maxClients > 0 && |s.conns| == cfg.maxClients && !s.discovery)
            && (forall c :: Enabled(cfg, s, Close(c)) ==> Apply(cfg, s, Close(c)).respond)
  {
    EveryScheduleKeepsInv(cfg, discovery, steps);
    var s := After(cfg, discovery, steps);
    forall c | Enabled(cfg, s, Close(c)) ensures Apply(cfg, s, Close(c)).respond {
      StepKeepsInv(cfg, s, Close(c));
    }
  }

  /** In every run: an accept on a full server pauses discovery and changes nothing else; any other accept adds
      exactly one serving connection, on that descriptor and without a session. */
  lemma AcceptExactly(cfg: Config, discovery: bool, steps: seq<Step>, c: nat, fd: int, text: bool)
    requires Legal(cfg, discovery, steps + [Accept(c, fd, text)]) && Legal(cfg, discovery, steps)
    ensures var s := After(cfg, discovery, steps);
            var t := After(cfg, discovery, steps + [Accept(c, fd, text)]);
            if cfg.maxClients > 0 && |s.conns| == cfg.maxClients then
              !t.respond && !t.discovery && t.conns == s.conns && t.active == s.active && t.sessions == s.sessions
            else
              && c !in s.conns && c in t.conns && t.conns - {c} == s.conns
              && t.conns[c] == Conn(fd, NO_SESSION, Serving, text) && t.active == s.active + 1
              && t.sessions == s.sessions && t.respond == s.respond && t.discovery == s.discovery
  {
    EveryScheduleKeepsInv(cfg, discovery, steps);
    var all := steps + [Accept(c, fd, text)];
    assert all[..|steps|] == steps && all[|steps|] == Accept(c, fd, text);
  }

  /** In every run a close gives the descriptor back, counts down, and has discovery answer again if a refusal
      had paused it; the registry is not touched any more. */
  lemma CloseExactly(cfg: Config, discovery: bool, steps: seq<Step>, c: nat)
    requires Legal(cfg, discovery, steps) && Enabled(cfg, After(cfg, discovery, steps), Close(c))
    ensures var s := After(cfg, discovery, steps);
            var t := Apply(cfg, s, Close(c));
            && t.conns == s.conns - {c} && |t.conns| == |s.conns| - 1 && t.active == s.active - 1
            && t.sessions == s.sessions && t.respond && t.discovery == (s.discovery || !s.respond)
  {
    EveryScheduleKeepsInv(cfg, discovery, steps);
    MapSizes(After(cfg, discovery, steps).conns, c, After(cfg, discovery, steps).conns[c]);
  }

  /** A step touches no connection but its own, and that one keeps its descriptor and protocol for life. */
  lemma ConnectionsAreIsolated(cfg: Config, s: State, step: Step, d: nat)
    requires Enabled(cfg, s, step)
    ensures var t := Apply(cfg, s, step);
            && (d != step.c ==> (d in t.conns <==> d in s.conns) && (d in s.conns ==> t.conns[d] == s.conns[d]))
            && (d in s.conns && d in t.conns ==> t.conns[d].fd == s.conns[d].fd && t.conns[d].text == s.conns[d].text)
            && (step == Leave(d) ==> d in t.conns && t.conns[d] == s.conns[d].(phase := Leaving))
            && (d in s.conns && d !in t.conns ==> step == Close(d))
  {
  }

  /** The disconnect hook runs, and can throw, exactly for a binary connection that has left its loop and whose
      last named session is not 2^64-1. */
  lemma HookRunsExactly(cfg: Config, discovery: bool, steps: seq<Step>, c: nat)
    requires Legal(cfg, discovery, steps) && c in After(cfg, discovery, steps).conns
    ensures var conn := After(cfg, discovery, steps).conns[c];
            Enabled(cfg, After(cfg, discovery, steps), HookThrows(c)) <==>
              cfg.hook && conn.phase == Leaving && !conn.text && LastNamed(steps, c) != 0xffff_ffff_ffff_ffff
  {
    SessionIsLastNamed(cfg, discovery, steps);
  }

  /** Since the last close, if any, some accept found the server full. */
  ghost predicate RefusedSinceClose(cfg: Config, discovery: bool, steps: seq<Step>)
    requires Legal(cfg, discovery, steps)
    decreases |steps|
  {
    steps != [] &&
    (var before := steps[..|steps| - 1];
     match steps[|steps| - 1]
     case Close(_) => false
     case Accept(_, _, _) =>
       RefusedSinceClose(cfg, discovery, before) ||
       (cfg.maxClients > 0 && |After(cfg, discovery, before).conns| == cfg.maxClients)
     case _ => RefusedSinceClose(cfg, discovery, before))
  }

  /** Some close came after a refusal. */
  ghost predicate Reopened(cfg: Config, discovery: bool, steps: seq<Step>)
    requires Legal(cfg, discovery, steps)
    decreases |steps|
  {
    steps != [] &&
    (Reopened(cfg, discovery, steps[..|steps| - 1]) ||
     (steps[|steps| - 1].Close? && RefusedSinceClose(cfg, discovery, steps[..|steps| - 1])))
  }

  /** In every run responses are paused exactly if an accept was refused since the last close. Discovery follows
      them, except that a server that started with discovery off keeps it off until its first reopening, which
      turns it on. */
  lemma {:induction false} PausedExactlySinceRefusal(cfg: Config, discovery: bool, steps: seq<Step>)
    requires Legal(cfg, discovery, steps)
    ensures var s := After(cfg, discovery, steps);
            && (!s.respond <==> RefusedSinceClose(cfg, discovery, steps))
            && (s.discovery <==> s.respond && (discovery || Reopened(cfg, discovery, steps)))
    decreases |steps|
  {
    if steps != [] {
      var before := steps[..|steps| - 1];
      PausedExactlySinceRefusal(cfg, discovery, before);
      EveryScheduleKeepsInv(cfg, discovery, before);
      StepMovesPause(cfg, After(cfg, discovery, before), steps[|steps| - 1]);
    }
  }

  lemma StepMovesPause(cfg: Config, s: State, step: Step)
    requires CountInv(cfg, s) && Enabled(cfg, s, step)
    ensures var t := Apply(cfg, s, step);
            var full := cfg.maxClients > 0 && |s.conns| == cfg.maxClients;
            match step
            case Close(_) => t.respond && t.discovery == (s.discovery || !s.respond)
            case Accept(_, _, _) => t.respond == (s.respond && !full) && t.discovery == (s.discovery && !full)
            case _ => t.respond == s.respond && t.discovery == s.discovery
  {
  }

  /** An uncaught exception, from a hook or a handler, changes nothing but the fate of its connection. */
  lemma UncaughtExactly(cfg: Config, s: State, step: Step)
    requires Enabled(cfg, s, step) && (step.HookThrows? || step.HandlerEscapes?)
    ensures var t := Apply(cfg, s, step);
            && AbandonedAt(t, step.c, s.conns[step.c].fd) && t.conns[step.c].sid == s.conns[step.c].sid
            && t.conns - {step.c} == s.conns - {step.c}
            && t.sessions == s.sessions && t.active == s.active
            && t.respond == s.respond && t.discovery == s.discovery
  {
  }

  /** It costs a slot for good: whatever follows, the descriptor is not closed and keeps counting, so discovery
      and admission treat the server as that much fuller ever after. */
  lemma AbandonedForever(cfg: Config, discovery: bool, steps: seq<Step>, step: Step, more: seq<Step>)
    requires Legal(cfg, discovery, steps) && (step.HookThrows? || step.HandlerEscapes?)
    requires Enabled(cfg, After(cfg, discovery, steps), step)
    requires Legal(cfg, discovery, steps + [step] + more)
    ensures var t := After(cfg, discovery, steps + [step] + more);
            && AbandonedAt(t, step.c, After(cfg, discovery, steps).conns[step.c].fd) && t.active >= 1
            && !Enabled(cfg, t, Close(step.c))
  {
    LegalSnoc(cfg, discovery, steps, step);
    UncaughtExactly(cfg, After(cfg, discovery, steps), step);
    AbandonedStays(cfg, discovery, steps + [step], more, step.c, After(cfg, discovery, steps).conns[step.c].fd);
    EveryScheduleKeepsInv(cfg, discovery, steps + [step] + more);
    assert step.c in After(cfg, discovery, steps + [step] + more).conns.Keys;
  }

  lemma {:induction false} AbandonedStays(cfg: Config, discovery: bool, steps: seq<Step>, more: seq<Step>, c: nat, fd: int)
    requires Legal(cfg, discovery, steps) && Legal(cfg, discovery, steps + more)
    requires AbandonedAt(After(cfg, discovery, steps), c, fd)
    ensures AbandonedAt(After(cfg, discovery, steps + more), c, fd)
    decreases |more|
  {
    if more == [] {
      assert steps + more == steps;
    } else {
      var before := steps + more[..|more| - 1];
      assert (steps + more)[..|steps + more| - 1] == before;
      AbandonedStays(cfg, discovery, steps, more[..|more| - 1], c, fd);
      AbandonedStep(cfg, After(cfg, discovery, before), (steps + more)[|steps + more| - 1], c, fd);
    }
  }

  ghost predicate AbandonedAt(s: State, c: nat, fd: int) {
    c in s.conns && s.conns[c].fd == fd && s.conns[c].phase == Abandoned
  }

  lemma AbandonedStep(cfg: Config, s: State, step: Step, c: nat, fd: int)
    requires Enabled(cfg, s, step) && AbandonedAt(s, c, fd)
    ensures AbandonedAt(Apply(cfg, s, step), c, fd)
  {
  }

  // ---------------------------------------------------------------- the code itself

  /** The part of `UringEngine` and `Server` that the client coroutines share, with their local variables
      collected in `conns`. Each method is the code between two suspension points. */
  class Engine {
    const cfg: Config
    var sessions: map<nat, int>
    var conns: map<nat, Conn>
    var activeConnections: int
    var respondToClients: bool
    var discoveryEnabled: bool

    ghost function Abs(): State
      reads this
    {
      State(sessions, conns, activeConnections, respondToClients, discoveryEnabled)
    }

    constructor (cfg: Config, discovery: bool)
      ensures Abs() == Init(discovery) && this.cfg == cfg
    {
      this.cfg := cfg;
      sessions, conns, activeConnections := map[], map[], 0;
      respondToClients, discoveryEnabled := true, discovery;
    }

    method RegisterSession(id: nat, fd: int)
      modifies this`sessions
      ensures sessions == old(sessions)[id := fd]
    {
      sessions := sessions[id := fd];
    }

    method UnregisterSession(id: nat)
      modifies this`sessions
      ensures sessions == old(sessions) - {id}
    {
      sessions := sessions - {id};
    }

    /** One turn of `start_accept_loop`, including the start of the client coroutine. */
    method OnAccept(c: nat, fd: int, text: bool) returns (admitted: bool)
      requires Enabled(cfg, Abs(), Accept(c, fd, text))
      modifies this
      ensures Abs() == Apply(cfg, old(Abs()), Accept(c, fd, text))
      ensures admitted <==> c in conns
    {
      if cfg.maxClients > 0 && activeConnections >= cfg.maxClients {
        respondToClients := false;
        discoveryEnabled := false;
        return false;
      }
      activeConnections := activeConnections + 1;
      conns := conns[c := Conn(fd, NO_SESSION, Serving, text)];
      return true;
    }

    /** The registry update in `handle_client` and `text_handle_client` after a frame was read. */
    method OnFrame(c: nat, id: nat)
      requires Enabled(cfg, Abs(), Frame(c, id))
      modifies this
      ensures Abs() == Apply(cfg, old(Abs()), Frame(c, id))
    {
      var conn := conns[c];
      if id != conn.sid {
        if conn.sid != 0 {
          UnregisterSession(conn.sid);
        }
        RegisterSession(id, conn.fd);
        conns := conns[c := conn.(sid := id)];
      }
    }

    /** After the client loop: unregister, before any disconnect hook runs. */
    method OnLeave(c: nat)
      requires Enabled(cfg, Abs(), Leave(c))
      modifies this
      ensures Abs() == Apply(cfg, old(Abs()), Leave(c))
    {
      var conn := conns[c];
      if conn.sid != NO_SESSION {
        UnregisterSession(conn.sid);
      }
      conns := conns[c := conn.(phase := Leaving)];
    }

    /** The disconnect hook threw, or a handler threw something other than `std::exception`: the detached
        coroutine ends here, before `close`. */
    method OnUncaught(c: nat)
      requires Enabled(cfg, Abs(), HookThrows(c)) || Enabled(cfg, Abs(), HandlerEscapes(c))
      modifies this
      ensures Abs() == Abandon(old(Abs()), c)
    {
      conns := conns[c := conns[c].(phase := Abandoned)];
    }

    /** Close the descriptor, count down, and resume discovery if there is room again. */
    method OnClose(c: nat)
      requires Enabled(cfg, Abs(), Close(c))
      modifies this
      ensures Abs() == Apply(cfg, old(Abs()), Close(c))
    {
      conns := conns - {c};
      activeConnections := activeConnections - 1;
      if cfg.maxClients > 0 && activeConnections < cfg.maxClients && !respondToClients {
        respondToClients := true;
        discoveryEnabled := true;
      }
    }
  }
}
