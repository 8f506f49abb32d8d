/** Sending to sessions: `send_to_session`, `do_broadcast` and `do_broadcast_if`
    (src/UringEngine/SessionBroadcast.cpp).

    A broadcast copies the registry and then writes to one target after the other, suspending at every
    write; the registry and the store may be anything afterwards. The copy is an unordered map, so the
    order of the targets is arbitrary. A write either delivers the whole buffer or raises. */
module Broadcast {

  import opened Options
  import opened Bytes
  import opened BinaryFraming
  import opened Commands
  import opened Requests
  import C = Connections
  import TF = TextFraming

  type Registry = map<uint64, int>

  /** A buffer written to a descriptor. */
  datatype Sent = Sent(fd: int, bytes: seq<byte>)

  /** What the rest of the server did while a write was pending. */
  datatype World = World(sessions: Registry, store: Store)

  /** `order` enumerates the keys of the registry. */
  ghost predicate Enumerates(order: seq<uint64>, registry: Registry) {
    && Distinct(order)
    && (forall id :: id in registry <==> id in order)
  }

  /** The descriptor registered for a session; targets are always registered. */
  function FdOf(registry: Registry, id: uint64): int { if id in registry then registry[id] else -1 }

  function Delivery(registry: Registry, id: uint64, command: uint16, payload: seq<byte>): Sent {
    Sent(FdOf(registry, id), EncodeFrame(FrameFor(command, 0, id, payload)))
  }

  function Deliveries(registry: Registry, targets: seq<uint64>, command: uint16, payload: seq<byte>): seq<Sent> {
    seq(|targets|, i requires 0 <= i < |targets| => Delivery(registry, targets[i], command, payload))
  }

  lemma DeliveriesSnoc(registry: Registry, targets: seq<uint64>, id: uint64, command: uint16, payload: seq<byte>)
    ensures Deliveries(registry, targets + [id], command, payload) ==
            Deliveries(registry, targets, command, payload) + [Delivery(registry, id, command, payload)]
  {
  }

  /** The number of writes before the first failure, among the first `n`. */
  function Succeeding(writes: seq<bool>, n: nat): (k: nat)
    requires n <= |writes|
    ensures k <= n && (forall i :: 0 <= i < k ==> writes[i]) && (k < n ==> !writes[k])
  {
    if n == 0 then 0
    else
      var k := Succeeding(writes, n - 1);
      if k == n - 1 && writes[n - 1] then n else k
  }

  // ---------------------------------------------------------------- who gets what

  /** The buffer is one whole frame with this command, payload and session. */
  ghost predicate IsFrameFor(sent: Sent, command: uint16, id: uint64, payload: seq<byte>) {
    DecodeFrame(sent.bytes) == Got(FrameFor(command, 0, id, payload), [])
  }

  lemma DeliveriesDecode(registry: Registry, targets: seq<uint64>, command: uint16, payload: seq<byte>)
    requires (forall i :: 0 <= i < |targets| ==> targets[i] in registry) && |payload| < 0x1_0000_0000
    ensures var sent := Deliveries(registry, targets, command, payload);
            forall i :: 0 <= i < |targets| ==>
              sent[i].fd == registry[targets[i]] && IsFrameFor(sent[i], command, targets[i], payload)
  {
    var sent := Deliveries(registry, targets, command, payload);
    forall i | 0 <= i < |targets| ensures IsFrameFor(sent[i], command, targets[i], payload) {
      PayloadSurvivesExactlyBelow4GiB(command, 0, targets[i], payload);
    }
  }

  /** If all writes succeed, each session registered at the start gets exactly one frame, on the
      descriptor it was registered with, and the frame decodes to the given command, payload and that
      session's own id; there are no other frames. */
  lemma EachTargetServedOnce(registry: Registry, order: seq<uint64>, command: uint16, payload: seq<byte>, id: uint64)
    requires Enumerates(order, registry) && id in registry && |payload| < 0x1_0000_0000
    ensures var sent := Deliveries(registry, order, command, payload);
            && |sent| == |registry|
            && exists i :: 0 <= i < |sent| && sent[i].fd == registry[id] && IsFrameFor(sent[i], command, id, payload)
                 && forall j :: 0 <= j < |sent| && j != i ==> !IsFrameFor(sent[j], command, id, payload)
  {
    var sent := Deliveries(registry, order, command, payload);
    DeliveriesDecode(registry, order, command, payload);
    OrderHasSize(order, registry);
    assert id in order;
    var i :| 0 <= i < |order| && order[i] == id;
    forall j | 0 <= j < |sent| && j != i ensures !IsFrameFor(sent[j], command, id, payload) {
      assert IsFrameFor(sent[j], command, order[j], payload);
      assert order[j] != id;
    }
    assert IsFrameFor(sent[i], command, id, payload) && sent[i].fd == registry[id];
  }

  lemma OrderHasSize(order: seq<uint64>, registry: Registry)
    requires Enumerates(order, registry)
    ensures |order| == |registry|
  {
    assert Elements(order) == registry.Keys;
    DistinctSize(order);
  }

  function Elements(order: seq<uint64>): set<uint64> { set id | id in order }

  lemma {:induction false} DistinctSize(order: seq<uint64>)
    requires Distinct(order)
    ensures |Elements(order)| == |order|
  {
    if order == [] {
      assert Elements(order) == {};
    } else {
      var last := |order| - 1;
      DistinctSize(order[..last]);
      assert Elements(order) == Elements(order[..last]) + {order[last]};
      assert order[last] !in Elements(order[..last]);
    }
  }

  // The conditional form looks each session up when its turn comes.

  /** The store when target `i` is visited: every visit makes the entry exist, and after a write the store
      is whatever the rest of the server made of it. */
  function StoreAt(store: Store, order: seq<uint64>, pred: Session -> bool, after: seq<World>, i: nat): Store
    requires i <= |order| && i <= |after|
  {
    if i == 0 then store
    else
      var visited := GetOrCreate(StoreAt(store, order, pred, after, i - 1), order[i - 1]);
      if pred(visited[order[i - 1]]) then after[i - 1].store else visited
  }

  /** The session the predicate sees for target `i`. */
  function SessionAt(store: Store, order: seq<uint64>, pred: Session -> bool, after: seq<World>, i: nat): Session
    requires i < |order| && i < |after|
  {
    GetOrCreate(StoreAt(store, order, pred, after, i), order[i])[order[i]]
  }

  /** Every write that the first `n` visits led to succeeded. */
  ghost predicate Written(store: Store, order: seq<uint64>, pred: Session -> bool, after: seq<World>, writes: seq<bool>, n: nat)
    requires n <= |order| && n <= |after| && n <= |writes|
  {
    n == 0 ||
    (Written(store, order, pred, after, writes, n - 1) &&
     (pred(SessionAt(store, order, pred, after, n - 1)) ==> writes[n - 1]))
  }

  function Filter(order: seq<uint64>, picks: seq<bool>): seq<uint64>
    requires |picks| <= |order|
  {
    if picks == [] then []
    else
      var last := |picks| - 1;
      Filter(order, picks[..last]) + if picks[last] then [order[last]] else []
  }

  /** For each of the first `n` targets, whether it satisfies the predicate when visited. */
  function Picks(store: Store, order: seq<uint64>, pred: Session -> bool, after: seq<World>, n: nat): seq<bool>
    requires n <= |order| && n <= |after|
  {
    seq(n, i requires 0 <= i < n => pred(SessionAt(store, order, pred, after, i)))
  }

  function Chosen(store: Store, order: seq<uint64>, pred: Session -> bool, after: seq<World>, n: nat): seq<uint64>
    requires n <= |order| && n <= |after|
  {
    Filter(order, Picks(store, order, pred, after, n))
  }

  lemma ChosenSnoc(store: Store, order: seq<uint64>, pred: Session -> bool, after: seq<World>, n: nat)
    requires n < |order| && n < |after|
    ensures Chosen(store, order, pred, after, n + 1) ==
            if pred(SessionAt(store, order, pred, after, n)) then Chosen(store, order, pred, after, n) + [order[n]]
            else Chosen(store, order, pred, after, n)
  {
    assert Picks(store, order, pred, after, n + 1)[..n] == Picks(store, order, pred, after, n);
  }

  lemma {:induction false} FilterExactly(order: seq<uint64>, picks: seq<bool>)
    requires |picks| <= |order|
    requires Distinct(order)
    ensures var chosen := Filter(order, picks);
            && (forall i :: 0 <= i < |picks| ==> (order[i] in chosen <==> picks[i]))
            && (forall id :: id in chosen ==> id in order[..|picks|])
            && Distinct(chosen)
  {
    if picks != [] {
      var last := |picks| - 1;
      FilterExactly(order, picks[..last]);
      var before := Filter(order, picks[..last]);
      assert order[last] !in order[..last];
      assert order[last] !in before;
      assert order[..|picks|] == order[..last] + [order[last]];
    }
  }

  /** Visiting a target that is not chosen leaves the store as it was, except that an unknown session now has
      a fresh, unauthenticated entry, which is what the predicate saw. */
  lemma UnchosenVisitCreatesEntry(store: Store, order: seq<uint64>, pred: Session -> bool, after: seq<World>, i: nat)
    requires i < |order| && i < |after| && !pred(SessionAt(store, order, pred, after, i))
    ensures var s, t := StoreAt(store, order, pred, after, i), StoreAt(store, order, pred, after, i + 1);
            && (order[i] in s ==> t == s && SessionAt(store, order, pred, after, i) == s[order[i]])
            && (order[i] !in s ==>
                  && t.Keys == s.Keys + {order[i]} && (forall id :: id in s ==> t[id] == s[id])
                  && t[order[i]] == Session(order[i], false, [], None) == SessionAt(store, order, pred, after, i))
  {
  }

  /** The chosen targets are exactly those whose session satisfies the predicate at its visit, each once. */
  lemma ChosenExactly(store: Store, order: seq<uint64>, pred: Session -> bool, after: seq<World>, n: nat)
    requires n <= |order| && n <= |after|
    requires Distinct(order)
    ensures var chosen := Chosen(store, order, pred, after, n);
            && (forall i :: 0 <= i < n ==> (order[i] in chosen <==> pred(SessionAt(store, order, pred, after, i))))
            && (forall id :: id in chosen ==> id in order[..n])
            && Distinct(chosen)
  {
    FilterExactly(order, Picks(store, order, pred, after, n));
  }

  // ---------------------------------------------------------------- who is on the descriptor by then

  /** The registry as it is copied. */
  function RegistryOf(s: C.State): Registry { map id: uint64 | id in s.sessions :: s.sessions[id] }

  /** In state `t` the written descriptor belongs to a serving connection on session `k`. */
  ghost predicate Reaches(t: C.State, sent: Sent, k: nat) {
    exists c :: C.Holds(t, c, k) && t.conns[c].fd == sent.fd
  }

  /** The registry is copied after `before`, and frame `i` is written after `after` has happened as well: for
      a regular id `k` that is never shared or orphaned, the frame reaches a client on session `k` if and
      only if the registry then maps `k` to the copied descriptor. With `k == order[i]` this is the check a
      broadcast could make before each write to be sure of its target; any other `k` is a stranger. */
  lemma DeliveryReachesExactly(cfg: C.Config, discovery: bool, before: seq<C.Step>, after: seq<C.Step>,
                               order: seq<uint64>, i: nat, command: uint16, payload: seq<byte>, k: nat)
    requires C.Legal(cfg, discovery, before) && C.Legal(cfg, discovery, before + after)
    requires Enumerates(order, RegistryOf(C.After(cfg, discovery, before))) && i < |order| && |payload| < 0x1_0000_0000
    requires C.Regular(k)
    requires C.NeverShared(cfg, discovery, before + after, k) && C.NeverOrphaned(cfg, discovery, before + after, k)
    ensures var snapshot := RegistryOf(C.After(cfg, discovery, before));
            var t := C.After(cfg, discovery, before + after);
            var sent := Deliveries(snapshot, order, command, payload)[i];
            && IsFrameFor(sent, command, order[i], payload)
            && (Reaches(t, sent, k) <==> k in t.sessions && t.sessions[k] == snapshot[order[i]])
  {
    var snapshot := RegistryOf(C.After(cfg, discovery, before));
    DeliveriesDecode(snapshot, order, command, payload);
    C.RegistryCompleteAt(cfg, discovery, before + after, k);
  }

  /** A snapshot does outlive what it describes: if a client leaves during the broadcast and its descriptor
      is given to the next one, the frame for the old session reaches a client on another session, and no
      client on its own. */
  lemma SnapshotCanReachAStranger(cfg: C.Config, command: uint16, payload: seq<byte>)
    returns (before: seq<C.Step>, after: seq<C.Step>)
    requires |payload| < 0x1_0000_0000
    ensures C.Legal(cfg, true, before) && C.Legal(cfg, true, before + after)
    ensures var snapshot := RegistryOf(C.After(cfg, true, before));
            var t := C.After(cfg, true, before + after);
            var sent := Deliveries(snapshot, [9], command, payload);
            && Enumerates([9], snapshot)
            && |sent| == 1 && IsFrameFor(sent[0], command, 9, payload)
            && Reaches(t, sent[0], 8) && !Reaches(t, sent[0], 9)
  {
    before := C.OneClient(cfg, 9);
    after := ClientReplaced(cfg, before);
    var snapshot := RegistryOf(C.After(cfg, true, before));
    assert snapshot == map[9 := 5];
    DeliveriesDecode(snapshot, [9], command, payload);
    assert C.Holds(C.After(cfg, true, before + after), 2, 8);
  }

  lemma ClientReplaced(cfg: C.Config, before: seq<C.Step>) returns (after: seq<C.Step>)
    requires C.Legal(cfg, true, before)
    requires C.After(cfg, true, before) == C.State(map[9 := 5], map[1 := C.Conn(5, 9, C.Serving, false)], 1, true, true)
    ensures C.Legal(cfg, true, before + after)
    ensures C.After(cfg, true, before + after).conns == map[2 := C.Conn(5, 8, C.Serving, false)]
  {
    C.LegalSnoc(cfg, true, before, C.Leave(1));
    C.LegalSnoc(cfg, true, before + [C.Leave(1)], C.Close(1));
    var steps := before + [C.Leave(1)] + [C.Close(1)];
    assert C.After(cfg, true, steps).conns == map[];
    C.LegalSnoc(cfg, true, steps, C.Accept(2, 5, false));
    C.LegalSnoc(cfg, true, steps + [C.Accept(2, 5, false)], C.Frame(2, 8));
    after := [C.Leave(1), C.Close(1), C.Accept(2, 5, false), C.Frame(2, 8)];
    assert steps + [C.Accept(2, 5, false)] + [C.Frame(2, 8)] == before + after;
  }

  /** What a client makes of a buffer: a binary one must find the frame in it, a text one some response at
      the start of it and of whatever follows. */
  ghost predicate Readable(conn: C.Conn, sent: Sent, command: uint16, id: uint64, payload: seq<byte>) {
    if conn.text then exists h, p, rest, more :: sent.bytes + more == TF.Response(h, p) + rest
    else IsFrameFor(sent, command, id, payload)
  }

  /** Messages to sessions are binary frames on every connection: they are readable exactly on those that do
      not speak the text protocol. */
  lemma ReadableExactlyOnBinaryConnections(
    registry: Registry, id: uint64, command: uint16, payload: seq<byte>, conn: C.Conn)
    requires id in registry && |payload| < 0x1_0000_0000
    ensures Readable(conn, Delivery(registry, id, command, payload), command, id, payload) <==> !conn.text
  {
    var sent := Delivery(registry, id, command, payload);
    if conn.text {
      forall h, p, rest, more ensures sent.bytes + more != TF.Response(h, p) + rest {
        TF.ResponseStartsPrintable(h, p, rest);
        BinaryHasZero(FrameFor(command, 0, id, payload));
        assert (sent.bytes + more)[2] == sent.bytes[2] == 0;
      }
    } else {
      DeliveriesDecode(registry, [id], command, payload);
      assert Deliveries(registry, [id], command, payload)[0] == sent;
    }
  }

  /** The flags of a frame without flags are its bytes 2 and 3. */
  lemma BinaryHasZero(f: Frame)
    requires f.header.flags == 0
    ensures |EncodeFrame(f)| > 2 && EncodeFrame(f)[2] == 0
  {
    assert LittleEndian(0, 2)[0] == 0;
  }

  // ---------------------------------------------------------------- the code itself

  class Messenger {
    var sessions: Registry
    var store: Store
    var outbox: seq<Sent>

    constructor (sessions: Registry, store: Store)
      ensures this.sessions == sessions && this.store == store && outbox == []
    {
      this.sessions, this.store, outbox := sessions, store, [];
    }

    /** `async_write` of one frame, after which the world may have changed; `false` is its exception. */
    method Write(fd: int, id: uint64, command: uint16, payload: seq<byte>, ok: bool, after: World)
      modifies this
      ensures outbox == old(outbox) + if ok then [Sent(fd, EncodeFrame(FrameFor(command, 0, id, payload)))] else []
      ensures sessions == after.sessions && store == after.store
    {
      var buffer := BuildFrame(Header(command, 0, ToUint32(|payload|), id), payload);
      if ok { outbox := outbox + [Sent(fd, buffer[..])]; }
      sessions, store := after.sessions, after.store;
    }

    /** `send_to_session`: nothing happens for an unknown session. */
    method SendTo(id: uint64, command: uint16, payload: seq<byte>, ok: bool, after: World)
      modifies this
      ensures id !in old(sessions) ==> outbox == old(outbox) && sessions == old(sessions) && store == old(store)
      ensures id in old(sessions) && ok ==> outbox == old(outbox) + [Delivery(old(sessions), id, command, payload)]
      ensures id in old(sessions) && !ok ==> outbox == old(outbox)
    {
      if id !in sessions { return; }
      Write(sessions[id], id, command, payload, ok, after);
    }

    /** `do_broadcast`: whatever happens to the registry meanwhile, the targets are those registered at
        the start, and a failed write leaves exactly the earlier ones served. */
    method DoBroadcast(command: uint16, payload: seq<byte>, order: seq<uint64>, writes: seq<bool>, after: seq<World>)
      returns (ok: bool)
      requires Enumerates(order, sessions) && |writes| == |after| == |order|
      modifies this
      ensures ok <==> forall i :: 0 <= i < |writes| ==> writes[i]
      ensures outbox == old(outbox) + Deliveries(old(sessions), order[..Succeeding(writes, |order|)], command, payload)
    {
      var snapshot := sessions;
      var i := 0;
      while i < |order|
        invariant 0 <= i <= |order|
        invariant forall k :: 0 <= k < i ==> writes[k]
        invariant outbox == old(outbox) + Deliveries(snapshot, order[..i], command, payload)
      {
        var id := order[i];
        Write(snapshot[id], id, command, payload, writes[i], after[i]);
        if !writes[i] {
          assert Succeeding(writes, |order|) == i;
          return false;
        }
        assert order[..i + 1] == order[..i] + [id];
        DeliveriesSnoc(snapshot, order[..i], id, command, payload);
        Assoc(old(outbox), Deliveries(snapshot, order[..i], command, payload), [Delivery(snapshot, id, command, payload)]);
        i := i + 1;
      }
      return true;
    }

    /** One turn of `do_broadcast_if`: look the session up, and write if it satisfies the predicate. */
    method Visit(fd: int, id: uint64, command: uint16, payload: seq<byte>, pred: Session -> bool, ok: bool, after: World)
      returns (picked: bool)
      modifies this
      ensures picked == pred(GetOrCreate(old(store), id)[id])
      ensures store == if picked then after.store else GetOrCreate(old(store), id)
      ensures outbox == if picked && ok then old(outbox) + [Sent(fd, EncodeFrame(FrameFor(command, 0, id, payload)))]
                        else old(outbox)
    {
      store := GetOrCreate(store, id);
      picked := pred(store[id]);
      if picked {
        Write(fd, id, command, payload, ok, after);
      }
    }

    /** `do_broadcast_if`: the same, for the targets whose session satisfies the predicate when visited. */
    method DoBroadcastIf(command: uint16, payload: seq<byte>, pred: Session -> bool,
                         order: seq<uint64>, writes: seq<bool>, after: seq<World>)
      returns (ok: bool, visited: nat)
      requires Enumerates(order, sessions) && |writes| == |after| == |order|
      modifies this
      ensures visited <= |order| && (ok <==> visited == |order|)
      ensures outbox == old(outbox) +
                Deliveries(old(sessions), Chosen(old(store), order, pred, after, visited), command, payload)
      ensures Written(old(store), order, pred, after, writes, visited)
      ensures !ok ==> pred(SessionAt(old(store), order, pred, after, visited)) && !writes[visited]
    {
      var snapshot := sessions;
      ghost var store0 := store;
      ghost var chosen: seq<uint64> := [];
      visited := 0;
      assert Chosen(store0, order, pred, after, 0) == chosen;
      while visited < |order|
        invariant 0 <= visited <= |order|
        invariant store == StoreAt(store0, order, pred, after, visited)
        invariant chosen == Chosen(store0, order, pred, after, visited)
        invariant outbox == old(outbox) + Deliveries(snapshot, chosen, command, payload)
        invariant Written(store0, order, pred, after, writes, visited)
      {
        var id := order[visited];
        ChosenSnoc(store0, order, pred, after, visited);
        var picked := Visit(snapshot[id], id, command, payload, pred, writes[visited], after[visited]);
        assert picked == pred(SessionAt(store0, order, pred, after, visited));
        if picked {
          if !writes[visited] { return false, visited; }
          DeliveriesSnoc(snapshot, chosen, id, command, payload);
          Assoc(old(outbox), Deliveries(snapshot, chosen, command, payload), [Delivery(snapshot, id, command, payload)]);
          chosen := chosen + [id];
        }
        visited := visited + 1;
      }
      return true, visited;
    }
  }
}
