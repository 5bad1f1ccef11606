/**
 Reassembly of the guest's fragmented datagrams (broadcast_relay.c): four slots, filled in
 ascending order, with a timeout and displacement of the oldest.
 */
module Reassembly {
  import opened Fragments

  const SLOTS: int := 4
  const MAX: int := 65535
  const TIMEOUT: int := 8

  /** What tells datagrams apart. */
  datatype Key = Key(src: Address, dst: Address, id: Half)

  datatype Slot = Slot(used: bool, key: Key, port: int, sock: int, next: nat, total: nat, started: int, data: seq<Byte>)

  type Slots = s: seq<Slot> | |s| == SLOTS witness seq(SLOTS, _ => Slot(false, Key(0, 0, 0), 0, 0, 0, 0, 0, []))

  /** The Access+ ports, and which of them have a socket. */
  datatype Config = Config(ports: seq<int>, bound: seq<bool>)

  /** A datagram handed to a socket. */
  datatype Sent = Sent(key: Key, sock: int, port: int, payload: seq<Byte>)

  datatype Relay = Relay(slots: Slots, dropped: nat, sent: seq<Sent>)

  /** A fragment from the guest, the time, and what the rate limiter and the socket will answer. */
  datatype Event = Event(key: Key, f: Fragment, now: int, allow: bool, sendOk: bool)

  // ---- lookups ----

  predicate Holds(s: Slot, k: Key) { s.used && s.key == k }

  /** The first slot from `i` on that holds the datagram, or 4. */
  function Find(slots: Slots, k: Key, i: nat): (r: nat)
    requires i <= SLOTS
    ensures i <= r <= SLOTS && (r < SLOTS ==> Holds(slots[r], k)) && forall j :: i <= j < r ==> !Holds(slots[j], k)
    decreases SLOTS - i
  {
    if i == SLOTS || Holds(slots[i], k) then i else Find(slots, k, i + 1)
  }

  /** The first free slot from `i` on, or 4. */
  function Free(slots: Slots, i: nat): (r: nat)
    requires i <= SLOTS
    ensures i <= r <= SLOTS && (r < SLOTS ==> !slots[r].used) && forall j :: i <= j < r ==> slots[j].used
    decreases SLOTS - i
  {
    if i == SLOTS || !slots[i].used then i else Free(slots, i + 1)
  }

  /** The oldest of `best` and the slots from `i` on. */
  function Oldest(slots: Slots, best: nat, i: nat): (r: nat)
    requires best < i <= SLOTS
    ensures r < SLOTS && slots[r].started <= slots[best].started && forall j :: i <= j < SLOTS ==> slots[r].started <= slots[j].started
    decreases SLOTS - i
  {
    if i == SLOTS then best else Oldest(slots, if slots[i].started < slots[best].started then i else best, i + 1)
  }

  /** find_socket_for_port(), from `i` on. */
  function PortIndex(ports: seq<int>, port: int, i: nat): int
    requires i <= |ports|
    decreases |ports| - i
  {
    if i == |ports| then -1 else if ports[i] == port then i else PortIndex(ports, port, i + 1)
  }

  /** The socket for a datagram that begins with these bytes: by destination port, else by source port. */
  function SocketFor(cfg: Config, data: seq<Byte>): int
    requires |data| >= 4
  {
    var byDst := PortIndex(cfg.ports, Joined(data[2], data[3]), 0);
    var sock := if byDst < 0 then PortIndex(cfg.ports, Joined(data[0], data[1]), 0) else byDst;
    if 0 <= sock < |cfg.bound| && cfg.bound[sock] then sock else -1
  }

  /** The destination port decides if it is one of the ports, else the source port; there must be a socket for it. */
  lemma SocketChosen(cfg: Config, data: seq<Byte>)
    requires |data| >= 4 && |cfg.bound| == |cfg.ports|
    ensures var from, to, i := data[0] as int * 256 + data[1] as int, data[2] as int * 256 + data[3] as int, SocketFor(cfg, data);
            && -1 <= i < |cfg.ports|
            && (i >= 0 ==> cfg.bound[i] && cfg.ports[i] == if to in cfg.ports then to else from)
            && (i < 0 ==> (to !in cfg.ports && from !in cfg.ports)
                          || exists j :: 0 <= j < |cfg.ports| && cfg.ports[j] == (if to in cfg.ports then to else from) && !cfg.bound[j])
  {
    PortFound(cfg.ports, Joined(data[2], data[3]), 0);
    PortFound(cfg.ports, Joined(data[0], data[1]), 0);
  }

  lemma {:induction false} PortFound(ports: seq<int>, port: int, i: nat)
    requires i <= |ports|
    ensures var k := PortIndex(ports, port, i);
            if port in ports[i..] then i <= k < |ports| && ports[k] == port && port !in ports[i..k] else k == -1
    decreases |ports| - i
  {
    if i < |ports| {
      PortFound(ports, port, i + 1);
      assert ports[i..] == [ports[i]] + ports[i + 1..];
      if ports[i] != port && port in ports[i..] {
        var k := PortIndex(ports, port, i);
        assert ports[i..k] == [ports[i]] + ports[i + 1..k];
      }
    }
  }

  // ---- steps ----

  predicate Stale(s: Slot, now: int) { s.used && now - s.started > TIMEOUT }

  function Aged(s: Slot, now: int): Slot { if Stale(s, now) then s.(used := false) else s }

  /** reasm_expire(), from slot `i` on. */
  function Expire(r: Relay, now: int, i: nat): Relay
    requires i <= SLOTS
    decreases SLOTS - i
  {
    if i == SLOTS then r
    else Expire(Relay(r.slots[i := Aged(r.slots[i], now)], r.dropped + (if Stale(r.slots[i], now) then 1 else 0), r.sent), now, i + 1)
  }

  /** reasm_claim(): the slot to use. */
  function Claim(slots: Slots, k: Key): (i: nat)
    ensures i < SLOTS
  {
    if Find(slots, k, 0) < SLOTS then Find(slots, k, 0)
    else if Free(slots, 0) < SLOTS then Free(slots, 0)
    else Oldest(slots, 0, 1)
  }

  predicate Displaces(slots: Slots, k: Key) { Find(slots, k, 0) == SLOTS && Free(slots, 0) == SLOTS }

  function Claimed(r: Relay, k: Key, now: int): Relay {
    var i := Claim(r.slots, k);
    r.(slots := r.slots[i := Slot(true, k, r.slots[i].port, r.slots[i].sock, 0, 0, now, r.slots[i].data)],
       dropped := r.dropped + if Displaces(r.slots, k) then 1 else 0)
  }

  function Release(r: Relay, i: nat): Relay
    requires i < SLOTS
  {
    r.(slots := r.slots[i := r.slots[i].(used := false)], dropped := r.dropped + 1)
  }

  /** The buffers hold what has arrived. */
  predicate Filled(slots: Slots) { forall i :: 0 <= i < SLOTS && slots[i].used ==> slots[i].next == |slots[i].data| && slots[i].total == 0 }

  /** The part of relay_tx_fragment() after the slot is known. */
  function Append(r: Relay, i: nat, e: Event): (bool, Relay)
    requires i < SLOTS && e.f.offset <= |r.slots[i].data|
  {
    var f, s := e.f, r.slots[i];
    if f.offset + |f.data| > MAX then (true, Release(r, i))
    else
      var next := f.offset + |f.data|;
      var s1 := s.(data := s.data[..f.offset] + f.data, next := next, total := if f.more then s.total else next);
      if s1.total == 0 || s1.next < s1.total then (true, r.(slots := r.slots[i := s1]))
      else (true, Complete(r.(slots := r.slots[i := s1.(used := false)]), s1, e))
  }

  function Complete(r: Relay, s: Slot, e: Event): Relay
    requires s.total <= |s.data|
  {
    if s.total < 8 || !e.allow || !e.sendOk then r.(dropped := r.dropped + 1)
    else r.(sent := r.sent + [Sent(s.key, s.sock, s.port, s.data[8..s.total])])
  }

  /** relay_tx_fragment(): is the fragment taken, and the relay afterwards. */
  function Absorb(r: Relay, cfg: Config, e: Event): (bool, Relay)
    requires Filled(r.slots)
  {
    var f := e.f;
    if f.data == [] then (false, r)
    else if f.offset == 0 then
      if |f.data| < 8 || SocketFor(cfg, f.data) < 0 then (false, r)
      else
        var i, r1 := Claim(r.slots, e.key), Claimed(r, e.key, e.now);
        Append(r1.(slots := r1.slots[i := r1.slots[i].(port := Joined(f.data[2], f.data[3]), sock := SocketFor(cfg, f.data))]), i, e)
    else
      var i := Find(r.slots, e.key, 0);
      if i == SLOTS then (false, r)
      else if f.offset != r.slots[i].next then (false, Release(r, i))
      else Append(r, i, e)
  }

  // ---- what every step keeps, whatever arrives ----

  /** No two slots in use hold the same datagram. */
  predicate Distinct(slots: Slots) {
    forall i, j :: 0 <= i < j < SLOTS && slots[i].used && slots[j].used ==> slots[i].key != slots[j].key
  }

  predicate Sound(r: Relay) { Filled(r.slots) && Distinct(r.slots) }

  lemma {:induction false} ExpireSound(r: Relay, now: int, i: nat)
    requires Sound(r) && i <= SLOTS
    ensures Sound(Expire(r, now, i)) && Expire(r, now, i).sent == r.sent
    ensures forall j :: 0 <= j < SLOTS ==> Expire(r, now, i).slots[j] == if j < i then r.slots[j] else Aged(r.slots[j], now)
    decreases SLOTS - i
  {
    if i < SLOTS {
      var r1 := Relay(r.slots[i := Aged(r.slots[i], now)], r.dropped + (if Stale(r.slots[i], now) then 1 else 0), r.sent);
      ExpireSound(r1, now, i + 1);
    }
  }

  lemma ClaimedSound(r: Relay, k: Key, now: int)
    requires Sound(r)
    ensures Distinct(Claimed(r, k, now).slots)
    ensures forall j :: 0 <= j < SLOTS && j != Claim(r.slots, k) ==> Claimed(r, k, now).slots[j] == r.slots[j] && !Holds(r.slots[j], k)
  {
    hide Oldest; hide Free;
  }

  lemma AppendSound(r: Relay, i: nat, e: Event)
    requires i < SLOTS && e.f.offset <= |r.slots[i].data| && Distinct(r.slots) && r.slots[i].total == 0
    requires forall j :: 0 <= j < SLOTS && j != i && r.slots[j].used ==> r.slots[j].next == |r.slots[j].data| && r.slots[j].total == 0
    ensures Sound(Append(r, i, e).1)
  {
  }

  /** Whatever the guest sends, the slots in use stay distinct. */
  lemma AbsorbSound(r: Relay, cfg: Config, e: Event)
    requires Sound(r)
    ensures Sound(Absorb(r, cfg, e).1)
  {
    hide Find; hide Claim; hide Claimed; hide Append; hide SocketFor;
    var f := e.f;
    if f.data != [] && f.offset == 0 && |f.data| >= 8 && SocketFor(cfg, f.data) >= 0 {
      ClaimedSound(r, e.key, e.now);
      ClaimedSlot(r, e.key, e.now);
      var i, r1 := Claim(r.slots, e.key), Claimed(r, e.key, e.now);
      AppendSound(r1.(slots := r1.slots[i := r1.slots[i].(port := Joined(f.data[2], f.data[3]), sock := SocketFor(cfg, f.data))]), i, e);
    } else if f.data != [] && f.offset != 0 {
      var i := Find(r.slots, e.key, 0);
      if i < SLOTS && f.offset == r.slots[i].next { AppendSound(r, i, e); }
    }
  }

  lemma ClaimedSlot(r: Relay, k: Key, now: int)
    ensures var s := Claimed(r, k, now).slots[Claim(r.slots, k)];
            s.used && s.key == k && s.next == 0 && s.total == 0 && s.started == now
    ensures Claimed(r, k, now).sent == r.sent
  {
    hide Find; hide Claim;
  }

  // ---- the datagrams that are open, without slots ----

  /** A datagram that has begun: its bytes so far and the time of its first fragment. */
  datatype Partial = Partial(data: seq<Byte>, started: int)

  datatype Ideal = Ideal(open: map<Key, Partial>, sent: seq<Sent>)

  function Whole(cfg: Config, k: Key, data: seq<Byte>): Sent
    requires |data| >= 8
  {
    Sent(k, SocketFor(cfg, data), Joined(data[2], data[3]), data[8..])
  }

  function Grown(o: Ideal, e: Event): Partial {
    if e.f.offset == 0 || e.key !in o.open then Partial(e.f.data, e.now)
    else Partial(o.open[e.key].data + e.f.data, o.open[e.key].started)
  }

  function IdealStep(o: Ideal, cfg: Config, e: Event): Ideal {
    var p := Grown(o, e);
    if e.f.more || |p.data| < 8 then o.(open := o.open[e.key := p])
    else Ideal(o.open - {e.key}, o.sent + [Whole(cfg, e.key, p.data)])
  }

  /** A fragment that continues an open datagram in order, or opens one while at most three others are open. */
  predicate InOrder(o: Ideal, cfg: Config, e: Event) {
    var f := e.f;
    if f.offset == 0 then
      f.more && |f.data| >= 8 && SocketFor(cfg, f.data) >= 0 && e.key !in o.open && |o.open| < SLOTS
    else
      e.key in o.open && f.offset == |o.open[e.key].data| && f.data != []
  }

  /** In order, within the length of a datagram, nothing timed out, and the rate limiter and the socket agree. */
  predicate Fits(o: Ideal, cfg: Config, e: Event) {
    && InOrder(o, cfg, e) && e.f.offset + |e.f.data| <= MAX && e.allow && e.sendOk
    && forall k :: k in o.open ==> e.now - o.open[k].started <= TIMEOUT
  }

  /** A slot holds an open datagram. */
  predicate Keeps(s: Slot, cfg: Config, p: Partial) {
    s.data == p.data && s.started == p.started && |p.data| >= 8 && s.port == Joined(p.data[2], p.data[3]) && s.sock == SocketFor(cfg, p.data)
  }

  /** The slots in use are the open datagrams. */
  predicate Represents(r: Relay, cfg: Config, o: Ideal) {
    && Sound(r) && r.sent == o.sent
    && (forall i :: 0 <= i < SLOTS && r.slots[i].used ==> r.slots[i].key in o.open && Keeps(r.slots[i], cfg, o.open[r.slots[i].key]))
    && (forall k :: k in o.open ==> Find(r.slots, k, 0) < SLOTS)
  }

  /** Fewer than four open datagrams leave a slot free. */
  lemma RoomLeft(r: Relay, cfg: Config, o: Ideal)
    requires Represents(r, cfg, o) && |o.open| < SLOTS
    ensures Free(r.slots, 0) < SLOTS
  {
    hide Find; hide Free; hide Keeps;
    if Free(r.slots, 0) == SLOTS {
      var s := r.slots;
      assert s[0].used && s[1].used && s[2].used && s[3].used;
      var keys := {s[0].key, s[1].key, s[2].key, s[3].key};
      assert |keys| == 4;
      assert keys <= o.open.Keys;
      SubsetSize(keys, o.open.Keys);
      assert false;
    }
  }

  lemma SubsetSize(a: set<Key>, b: set<Key>)
    requires a <= b
    ensures |a| <= |b|
  {
    assert b == a + (b - a);
  }

  /** When nothing has timed out, expiry changes nothing. */
  lemma {:induction false} NothingExpires(r: Relay, now: int, i: nat)
    requires i <= SLOTS && forall j :: 0 <= j < SLOTS ==> !Stale(r.slots[j], now)
    ensures Expire(r, now, i) == r
    decreases SLOTS - i
  {
    if i < SLOTS {
      assert r.slots[i := Aged(r.slots[i], now)] == r.slots;
      NothingExpires(r, now, i + 1);
    }
  }

  /** The socket and the port depend on the first four bytes alone. */
  lemma SameSocket(cfg: Config, a: seq<Byte>, b: seq<Byte>)
    requires |a| >= 8 && a <= b
    ensures SocketFor(cfg, b) == SocketFor(cfg, a) && Joined(b[2], b[3]) == Joined(a[2], a[3])
  {
    hide PortIndex;
  }

  /** The relay before a packet's fragment is looked at, and after. */
  function Take(r: Relay, cfg: Config, e: Event): (bool, Relay)
    requires Sound(r)
  {
    ExpireSound(r, e.now, 0);
    Absorb(Expire(r, e.now, 0), cfg, e)
  }

  /** Writing one slot of the relay. */
  lemma SetSlot(r: Relay, cfg: Config, o: Ideal, i: nat, s: Slot, p: Partial)
    requires Represents(r, cfg, o) && i < SLOTS && s.used && s.next == |s.data| && s.total == 0 && Keeps(s, cfg, p)
    requires (!r.slots[i].used && s.key !in o.open) || Holds(r.slots[i], s.key)
    ensures Represents(r.(slots := r.slots[i := s]), cfg, o.(open := o.open[s.key := p]))
  {
    hide Find; hide Keeps;
    var d := r.(slots := r.slots[i := s]);
    forall k | k in o.open[s.key := p] ensures Find(d.slots, k, 0) < SLOTS {
      if k != s.key { assert Holds(d.slots[Find(r.slots, k, 0)], k); }
      else { assert Holds(d.slots[i], k); }
    }
  }

  /** Freeing one. */
  lemma FreeSlot(r: Relay, cfg: Config, o: Ideal, i: nat, s: Slot, sent: Sent)
    requires Represents(r, cfg, o) && i < SLOTS && r.slots[i].used && !s.used
    ensures Represents(r.(slots := r.slots[i := s], sent := r.sent + [sent]), cfg, Ideal(o.open - {r.slots[i].key}, o.sent + [sent]))
  {
    hide Find; hide Keeps;
    var k0 := r.slots[i].key;
    var d := r.(slots := r.slots[i := s], sent := r.sent + [sent]);
    forall k | k in o.open - {k0} ensures Find(d.slots, k, 0) < SLOTS {
      assert Holds(d.slots[Find(r.slots, k, 0)], k);
    }
  }

  lemma OpenRefines(r: Relay, cfg: Config, o: Ideal, e: Event)
    requires Represents(r, cfg, o) && Fits(o, cfg, e) && e.f.offset == 0
    ensures Absorb(r, cfg, e).0 && Represents(Absorb(r, cfg, e).1, cfg, IdealStep(o, cfg, e)) && Absorb(r, cfg, e).1.dropped == r.dropped
  {
    hide SocketFor; hide Find; hide Free; hide Oldest;
    RoomLeft(r, cfg, o);
    var f, i := e.f, Claim(r.slots, e.key);
    assert Find(r.slots, e.key, 0) == SLOTS;
    var s := Slot(true, e.key, Joined(f.data[2], f.data[3]), SocketFor(cfg, f.data), |f.data|, 0, e.now, f.data);
    var data := r.slots[i].data;
    assert data[..0] + f.data == f.data;
    SetSlot(r, cfg, o, i, s, Partial(f.data, e.now));
    assert Absorb(r, cfg, e).1.slots == r.slots[i := s];
  }

  /** An open datagram's slot, and what a further fragment makes of it. */
  lemma GrowSlot(r: Relay, cfg: Config, o: Ideal, e: Event, i: nat)
    requires Represents(r, cfg, o) && Fits(o, cfg, e) && e.f.offset != 0 && i == Find(r.slots, e.key, 0)
    ensures i < SLOTS
    ensures var s, p := r.slots[i], Grown(o, e);
            && Holds(s, e.key) && s.next == e.f.offset == |s.data| && s.total == 0 && s.data[..e.f.offset] + e.f.data == p.data
            && |p.data| == e.f.offset + |e.f.data| && Keeps(s.(data := p.data), cfg, p)
  {
    hide SocketFor; hide Find;
    assert Keeps(r.slots[i], cfg, o.open[e.key]);
    SameSocket(cfg, r.slots[i].data, Grown(o, e).data);
  }

  lemma GrowRefines(r: Relay, cfg: Config, o: Ideal, e: Event)
    requires Represents(r, cfg, o) && Fits(o, cfg, e) && e.f.offset != 0
    ensures Absorb(r, cfg, e).0 && Represents(Absorb(r, cfg, e).1, cfg, IdealStep(o, cfg, e)) && Absorb(r, cfg, e).1.dropped == r.dropped
  {
    hide SocketFor; hide Find; hide Represents; hide Grown;
    var f, i := e.f, Find(r.slots, e.key, 0);
    GrowSlot(r, cfg, o, e, i);
    RepresentsSound(r, cfg, o);
    var s, p := r.slots[i], Grown(o, e);
    var next := f.offset + |f.data|;
    if f.more {
      SetSlot(r, cfg, o, i, s.(data := p.data, next := next), p);
    } else {
      assert p.data[8..next] == p.data[8..];
      FreeSlot(r, cfg, o, i, s.(data := p.data, next := next, total := next, used := false), Whole(cfg, e.key, p.data));
    }
  }

  /** The four slots do what unlimited storage would do. */
  lemma TakeRefines(r: Relay, cfg: Config, o: Ideal, e: Event)
    requires Represents(r, cfg, o) && Fits(o, cfg, e)
    ensures Take(r, cfg, e).0 && Represents(Take(r, cfg, e).1, cfg, IdealStep(o, cfg, e)) && Take(r, cfg, e).1.dropped == r.dropped
  {
    hide Find; hide Absorb; hide IdealStep; hide Expire;
    forall j | 0 <= j < SLOTS ensures !Stale(r.slots[j], e.now) {
      if r.slots[j].used { assert Keeps(r.slots[j], cfg, o.open[r.slots[j].key]); }
    }
    NothingExpires(r, e.now, 0);
    if e.f.offset == 0 { OpenRefines(r, cfg, o, e); } else { GrowRefines(r, cfg, o, e); }
  }

  // ---- every interleaving ----

  function IdealRun(o: Ideal, cfg: Config, es: seq<Event>): Ideal
    decreases |es|
  {
    if es == [] then o else IdealRun(IdealStep(o, cfg, es[0]), cfg, es[1..])
  }

  predicate Orderly(o: Ideal, cfg: Config, es: seq<Event>)
    decreases |es|
  {
    es == [] || (Fits(o, cfg, es[0]) && Orderly(IdealStep(o, cfg, es[0]), cfg, es[1..]))
  }

  function Run(r: Relay, cfg: Config, es: seq<Event>): Relay
    requires Sound(r)
    decreases |es|
  {
    if es == [] then r
    else
      ExpireSound(r, es[0].now, 0);
      AbsorbSound(Expire(r, es[0].now, 0), cfg, es[0]);
      Run(Take(r, cfg, es[0]).1, cfg, es[1..])
  }

  /** In every run whatsoever the slots in use stay distinct. */
  lemma {:induction false} RunSound(r: Relay, cfg: Config, es: seq<Event>)
    requires Sound(r)
    ensures Sound(Run(r, cfg, es))
    decreases |es|
  {
    hide Sound; hide Expire; hide Absorb;
    if es != [] {
      ExpireSound(r, es[0].now, 0);
      AbsorbSound(Expire(r, es[0].now, 0), cfg, es[0]);
      RunSound(Take(r, cfg, es[0]).1, cfg, es[1..]);
    }
  }

  /** In every orderly run the relay sends what unlimited storage would send, and drops nothing. */
  lemma {:induction false} RunRefines(r: Relay, cfg: Config, o: Ideal, es: seq<Event>)
    requires Represents(r, cfg, o) && Orderly(o, cfg, es)
    ensures Represents(Run(r, cfg, es), cfg, IdealRun(o, cfg, es)) && Run(r, cfg, es).dropped == r.dropped
    decreases |es|
  {
    hide Represents; hide Fits; hide Take; hide IdealStep; hide Sound;
    RepresentsSound(r, cfg, o);
    if es != [] {
      TakeRefines(r, cfg, o, es[0]);
      RunRefines(Take(r, cfg, es[0]).1, cfg, IdealStep(o, cfg, es[0]), es[1..]);
    }
  }

  lemma RepresentsSound(r: Relay, cfg: Config, o: Ideal)
    requires Represents(r, cfg, o)
    ensures Sound(r) && r.sent == o.sent
  {
    hide Sound;
  }

  /** The fragments of one datagram in a run. */
  function Stream(es: seq<Event>, k: Key): seq<Fragment>
    decreases |es|
  {
    if es == [] then [] else (if es[0].key == k then [es[0].f] else []) + Stream(es[1..], k)
  }

  /** What was sent for one datagram. */
  function SentFor(sent: seq<Sent>, k: Key): seq<Sent>
    decreases |sent|
  {
    if sent == [] then [] else SentFor(sent[..|sent| - 1], k) + (if sent[|sent| - 1].key == k then [sent[|sent| - 1]] else [])
  }

  lemma SentForSnoc(sent: seq<Sent>, s: Sent, k: Key)
    ensures SentFor(sent + [s], k) == SentFor(sent, k) + if s.key == k then [s] else []
  {
    assert (sent + [s])[..|sent|] == sent;
  }

  /** How much of a datagram the unlimited storage has. */
  predicate Reached(o: Ideal, k: Key, d: seq<Byte>, offset: nat) {
    offset <= |d| && if offset == 0 || offset == |d| then k !in o.open else k in o.open && o.open[k].data == d[..offset]
  }

  lemma OtherStep(o: Ideal, cfg: Config, e: Event, k: Key, d: seq<Byte>, offset: nat)
    requires Fits(o, cfg, e) && e.key != k && Reached(o, k, d, offset)
    ensures var o1 := IdealStep(o, cfg, e); Reached(o1, k, d, offset) && SentFor(o1.sent, k) == SentFor(o.sent, k)
  {
    hide SocketFor; hide SentFor;
    var p := Grown(o, e);
    if !e.f.more && |p.data| >= 8 { SentForSnoc(o.sent, Whole(cfg, e.key, p.data), k); }
  }

  lemma OwnStep(o: Ideal, cfg: Config, e: Event, fs: seq<Fragment>, d: seq<Byte>, offset: nat)
    requires Fits(o, cfg, e) && Reached(o, e.key, d, offset) && Tiles([e.f] + fs, d, offset) && |d| >= 8
    ensures var o1 := IdealStep(o, cfg, e);
            && Reached(o1, e.key, d, offset + |e.f.data|) && Tiles(fs, d, offset + |e.f.data|)
            && SentFor(o1.sent, e.key) == SentFor(o.sent, e.key) + if offset + |e.f.data| == |d| then [Whole(cfg, e.key, d)] else []
  {
    hide SocketFor; hide SentFor;
    var all := [e.f] + fs;
    assert all[1..] == fs;
    var p := Grown(o, e);
    var end := offset + |e.f.data|;
    assert p.data == d[..end];
    TilesEnd(fs, d, end);
    if !e.f.more {
      assert d[..end] == d;
      SentForSnoc(o.sent, Whole(cfg, e.key, d), e.key);
    }
  }

  lemma TilesEnd(fs: seq<Fragment>, d: seq<Byte>, offset: nat)
    requires Tiles(fs, d, offset)
    ensures fs == [] <==> offset == |d|
  {
  }

  /**
   The fragments of `k` that a run still brings, and `later` after it, complete the datagram; whatever other
   streams are interleaved, it is sent once, with exactly its bytes, if nothing is left for later, and not at
   all otherwise.
   */
  lemma {:induction false} IdealCompletes(o: Ideal, cfg: Config, es: seq<Event>, k: Key, d: seq<Byte>, offset: nat, later: seq<Fragment>)
    requires Orderly(o, cfg, es) && Reached(o, k, d, offset) && Tiles(Stream(es, k) + later, d, offset) && |d| >= 8
    ensures SentFor(IdealRun(o, cfg, es).sent, k) == SentFor(o.sent, k) + if offset < |d| && later == [] then [Whole(cfg, k, d)] else []
    decreases |es|
  {
    hide Fits; hide IdealStep; hide SentFor; hide Tiles; hide Whole;
    TilesEnd(Stream(es, k) + later, d, offset);
    if es != [] {
      var e, rest := es[0], Stream(es[1..], k);
      if e.key == k {
        assert [e.f] + rest + later == [e.f] + (rest + later);
        TilesFirst([e.f] + (rest + later), d, offset);
        OwnStep(o, cfg, e, rest + later, d, offset);
        TilesEnd(rest + later, d, offset + |e.f.data|);
        IdealCompletes(IdealStep(o, cfg, e), cfg, es[1..], k, d, offset + |e.f.data|, later);
      } else {
        assert [] + rest == rest;
        OtherStep(o, cfg, e, k, d, offset);
        IdealCompletes(IdealStep(o, cfg, e), cfg, es[1..], k, d, offset, later);
      }
    }
  }

  lemma TilesFirst(fs: seq<Fragment>, d: seq<Byte>, offset: nat)
    requires Tiles(fs, d, offset) && fs != []
    ensures offset < offset + |fs[0].data| <= |d|
  {
  }

  /**
   Every orderly run: a datagram whose fragments all arrive is sent exactly once, with exactly its
   bytes, from the right socket to the right port; one that is still incomplete is not sent.
   */
  lemma SentExactlyOnce(r: Relay, cfg: Config, o: Ideal, es: seq<Event>, k: Key, d: seq<Byte>, later: seq<Fragment>)
    requires Represents(r, cfg, o) && Orderly(o, cfg, es) && k !in o.open
    requires |d| >= 8 && Tiles(Stream(es, k) + later, d, 0)
    ensures SentFor(Run(r, cfg, es).sent, k) == SentFor(r.sent, k) + if later == [] then [Whole(cfg, k, d)] else []
  {
    hide Tiles; hide Orderly; hide IdealRun; hide Run; hide SentFor; hide Whole;
    RunRefines(r, cfg, o, es);
    IdealCompletes(o, cfg, es, k, d, 0, later);
  }

  // ---- the fragmenter and the reassembler ----

  /** Fragments fed one after the other, each at its own time. */
  function Fed(k: Key, fs: seq<Fragment>, nows: seq<int>): seq<Event>
    requires |nows| == |fs|
  {
    seq(|fs|, i requires 0 <= i < |fs| => Event(k, fs[i], nows[i], true, true))
  }

  lemma {:induction false} FedStream(k: Key, fs: seq<Fragment>, nows: seq<int>)
    requires |nows| == |fs|
    ensures Stream(Fed(k, fs, nows), k) == fs
    decreases |fs|
  {
    if fs != [] {
      assert Fed(k, fs, nows)[1..] == Fed(k, fs[1..], nows[1..]);
      FedStream(k, fs[1..], nows[1..]);
    }
  }

  /** No open datagram has timed out. */
  predicate Timely(o: Ideal, now: int) { forall k :: k in o.open ==> now - o.open[k].started <= TIMEOUT }

  /** Nothing that is open times out at any of the times, nor does a datagram begun at the first of them. */
  predicate AllTimely(o: Ideal, nows: seq<int>) {
    forall i :: 0 <= i < |nows| ==> Timely(o, nows[i]) && nows[i] - nows[0] <= TIMEOUT
  }

  lemma {:induction false} FedOrderly(o: Ideal, cfg: Config, k: Key, fs: seq<Fragment>, d: seq<Byte>, offset: nat, nows: seq<int>)
    requires |nows| == |fs| && Tiles(fs, d, offset) && Reached(o, k, d, offset) && 8 <= |d| <= MAX
    requires if offset == 0 then AllTimely(o, nows) else forall i :: 0 <= i < |nows| ==> Timely(o, nows[i])
    requires offset == 0 ==> |o.open| < SLOTS && |fs| > 1 && |fs[0].data| >= 8 && SocketFor(cfg, d) >= 0
    ensures Orderly(o, cfg, Fed(k, fs, nows))
    decreases |fs|
  {
    hide SocketFor; hide SentFor; hide Timely; hide Fits; hide IdealStep; hide Reached; hide Tiles;
    if fs != [] {
      var e := Event(k, fs[0], nows[0], true, true);
      assert Fed(k, fs, nows)[1..] == Fed(k, fs[1..], nows[1..]);
      TilesStart(fs, d, offset);
      if offset == 0 { SameSocket(cfg, fs[0].data, d); }
      FedFits(o, cfg, e, fs, d, offset);
      FedNext(o, cfg, e, fs, d, offset);
      forall i | 0 <= i < |nows[1..]| ensures Timely(IdealStep(o, cfg, e), nows[1..][i]) {
        FedTimely(o, cfg, e, d, offset, nows[i + 1]);
      }
      FedOrderly(IdealStep(o, cfg, e), cfg, k, fs[1..], d, offset + |fs[0].data|, nows[1..]);
    }
  }

  lemma TilesStart(fs: seq<Fragment>, d: seq<Byte>, offset: nat)
    requires Tiles(fs, d, offset) && fs != []
    ensures fs[0].offset == offset && 0 < |fs[0].data| && (offset == 0 ==> fs[0].data <= d)
  {
  }

  lemma FedFits(o: Ideal, cfg: Config, e: Event, fs: seq<Fragment>, d: seq<Byte>, offset: nat)
    requires fs != [] && e.f == fs[0] && e.allow && e.sendOk && Timely(o, e.now)
    requires Tiles(fs, d, offset) && Reached(o, e.key, d, offset) && |d| <= MAX
    requires offset == 0 ==> |o.open| < SLOTS && |fs| > 1 && |fs[0].data| >= 8 && SocketFor(cfg, fs[0].data) >= 0
    ensures Fits(o, cfg, e)
  {
    hide SocketFor;
  }

  lemma FedNext(o: Ideal, cfg: Config, e: Event, fs: seq<Fragment>, d: seq<Byte>, offset: nat)
    requires fs != [] && e.f == fs[0] && Fits(o, cfg, e)
    requires Tiles(fs, d, offset) && Reached(o, e.key, d, offset) && |d| >= 8
    ensures Reached(IdealStep(o, cfg, e), e.key, d, offset + |e.f.data|) && Tiles(fs[1..], d, offset + |e.f.data|)
  {
    hide SocketFor; hide SentFor; hide Tiles; hide Reached; hide Fits; hide IdealStep;
    assert [e.f] + fs[1..] == fs;
    OwnStep(o, cfg, e, fs[1..], d, offset);
  }

  /** A step leaves open datagrams timely at a later time. */
  lemma FedTimely(o: Ideal, cfg: Config, e: Event, d: seq<Byte>, offset: nat, later: int)
    requires Fits(o, cfg, e) && e.f.offset == offset && Reached(o, e.key, d, offset) && Timely(o, later)
    requires offset == 0 ==> later - e.now <= TIMEOUT
    ensures Timely(IdealStep(o, cfg, e), later)
  {
    hide SocketFor; hide Whole;
  }

  /** What the fragmenter cuts, the reassembler puts together: the payload comes out as it went in. */
  lemma RoundTrip(r: Relay, cfg: Config, o: Ideal, k: Key, from: Half, to: Half, payload: seq<Byte>, nows: seq<int>)
    requires Represents(r, cfg, o) && k !in o.open && |o.open| < SLOTS && AllTimely(o, nows)
    requires 1472 < |payload| <= 65507 && |nows| == |Pieces(Datagram(from, to, payload), 0)|
    requires SocketFor(cfg, Datagram(from, to, payload)) >= 0
    ensures var d := Datagram(from, to, payload);
            SentFor(Run(r, cfg, Fed(k, Pieces(d, 0), nows)).sent, k) == SentFor(r.sent, k) + [Sent(k, SocketFor(cfg, d), to, payload)]
  {
    hide Pieces; hide Tiles; hide Orderly; hide Run; hide SentFor; hide SocketFor; hide Represents; hide AllTimely;
    var d := Datagram(from, to, payload);
    DatagramIs(from, to, payload);
    PiecesTile(d, 0);
    PiecesUnfold(d, 0);
    PieceIs(d, 0);
    PairJoins(to);
    var fs := Pieces(d, 0);
    FedStream(k, fs, nows);
    assert fs + [] == fs;
    FedOrderly(o, cfg, k, fs, d, 0, nows);
    SentExactlyOnce(r, cfg, o, Fed(k, fs, nows), k, d, []);
    assert d[8..] == payload;
  }

  // ---- from frames to fragments ----

  datatype Routing = Elsewhere | ToReassembly(p: Packet)

  /** broadcast_relay_tx() up to the fragments: what goes to the reassembler. `external` is its test of the destination. */
  function Routed(pkt: seq<Byte>, external: bool): Routing {
    if |pkt| < 42 || Joined(pkt[12], pkt[13]) != 0x800 || pkt[23] != 17 then Elsewhere
    else
      var hdrLen := pkt[14] % 16 * 4;
      if hdrLen < 20 || |pkt| < 14 + hdrLen then Elsewhere
      else
        var p := Parse(pkt[14..]);
        if (p.f.more || p.f.offset != 0) && external then ToReassembly(p) else Elsewhere
  }

  /** A fragment's frame reaches the reassembler as that fragment exactly when data and padding make eight bytes. */
  lemma RoutedFrame(r: Route, f: Fragment, padding: seq<Byte>)
    requires f.data != [] && |f.data| <= STEP && f.offset % 8 == 0 && f.offset < 0x1_0000 && (f.more || f.offset != 0)
    ensures Routed(Frame(r, f) + padding, true) == if |f.data| + |padding| >= 8 then ToReassembly(Packet(r.src, r.dst, r.id, f)) else Elsewhere
  {
    hide Parse; hide Header; hide Checksum;
    var pkt := Frame(r, f) + padding;
    FrameShape(r, f);
    ParseFrame(r, f, padding);
    assert pkt[14..][0] == pkt[14];
  }

  lemma FrameShape(r: Route, f: Fragment)
    requires |f.data| <= STEP
    ensures var fr := Frame(r, f);
            |fr| == 34 + |f.data| && fr[12] == 8 && fr[13] == 0 && fr[14] == 0x45 && fr[23] == 17
  {
    hide Checksum; hide FragmentField; hide Quad;
    var h := Header(r, f);
    assert h[0] == 0x45 && h[9] == 17;
    var fr := Frame(r, f);
    assert fr[14] == h[0] && fr[23] == h[9];
  }

  /** Frames as long as their data: all fragments of a datagram are taken if and only if its tail is not one to seven bytes long. */
  lemma TailTaken(r: Route, from: Half, to: Half, payload: seq<Byte>)
    requires 1472 < |payload| <= 65507
    ensures var fs := Pieces(Datagram(from, to, payload), 0);
            && (forall i :: 0 <= i < |fs| ==> |fs[i].data| <= STEP)
            && ((forall i :: 0 <= i < |fs| ==> Routed(Frame(r, fs[i]), true).ToReassembly?) <==>
                (8 + |payload|) % STEP == 0 || (8 + |payload|) % STEP >= 8)
  {
    hide Datagram; hide Routed; hide Frame; hide Tiles; hide Pieces;
    var d := Datagram(from, to, payload);
    DatagramIs(from, to, payload);
    PiecesTile(d, 0);
    var fs := Pieces(d, 0);
    forall i | 0 <= i < |fs| ensures Routed(Frame(r, fs[i]), true).ToReassembly? <==> |fs[i].data| >= 8 {
      PieceAt(d, 0, i);
      assert Frame(r, fs[i]) + [] == Frame(r, fs[i]);
      RoutedFrame(r, fs[i], []);
    }
    forall i | 0 <= i < |fs| ensures |fs[i].data| >= 8 <==> i < |fs| - 1 || |d| % STEP == 0 || |d| % STEP >= 8 {
      PieceAt(d, 0, i);
    }
    var last := |fs| - 1;
    if forall i :: 0 <= i < |fs| ==> Routed(Frame(r, fs[i]), true).ToReassembly? {
      assert Routed(Frame(r, fs[last]), true).ToReassembly?;
    }
  }

  /** What the reassembler is given of a sequence of frames. */
  function Received(pkts: seq<seq<Byte>>, nows: seq<int>): seq<Event>
    requires |nows| == |pkts|
    decreases |pkts|
  {
    if pkts == [] then []
    else
      var routing := Routed(pkts[0], true);
      (if routing.ToReassembly? then
         [Event(Key(routing.p.src, routing.p.dst, routing.p.id), routing.p.f, nows[0], true, true)]
       else []) + Received(pkts[1..], nows[1..])
  }

  /** A fragment that can be sent in a frame, and with its padding is long enough to be taken. */
  predicate Sendable(f: Fragment, padding: seq<Byte>) {
    f.data != [] && |f.data| <= STEP && f.offset % 8 == 0 && f.offset < 0x1_0000 && (f.more || f.offset != 0) && |f.data| + |padding| >= 8
  }

  /** Frames with their padding. */
  function Padded(frames: seq<seq<Byte>>, pads: seq<seq<Byte>>): seq<seq<Byte>>
    requires |pads| == |frames|
  {
    seq(|frames|, i requires 0 <= i < |frames| => frames[i] + pads[i])
  }

  lemma {:induction false} FramesReceived(r: Route, fs: seq<Fragment>, pads: seq<seq<Byte>>, nows: seq<int>)
    requires |pads| == |fs| == |nows| && forall i :: 0 <= i < |fs| ==> Sendable(fs[i], pads[i])
    ensures forall i :: 0 <= i < |fs| ==> |fs[i].data| <= STEP
    ensures Received(Padded(Frames(r, fs), pads), nows) == Fed(Key(r.src, r.dst, r.id), fs, nows)
    decreases |fs|
  {
    hide Routed; hide Frame; hide Sendable;
    var k := Key(r.src, r.dst, r.id);
    forall i | 0 <= i < |fs| ensures |fs[i].data| <= STEP { SendableIs(r, fs[i], pads[i]); }
    if fs == [] {
      assert Padded(Frames(r, fs), pads) == [];
    } else {
      assert Sendable(fs[0], pads[0]);
      SendableIs(r, fs[0], pads[0]);
      forall i | 0 <= i < |fs[1..]| ensures Sendable(fs[1..][i], pads[1..][i]) {
        assert Sendable(fs[i + 1], pads[i + 1]);
      }
      var pkts := Padded(Frames(r, fs), pads);
      assert pkts[0] == Frame(r, fs[0]) + pads[0];
      assert pkts[1..] == Padded(Frames(r, fs[1..]), pads[1..]);
      FramesReceived(r, fs[1..], pads[1..], nows[1..]);
      assert Fed(k, fs, nows) == [Event(k, fs[0], nows[0], true, true)] + Fed(k, fs[1..], nows[1..]);
    }
  }

  lemma SendableIs(r: Route, f: Fragment, padding: seq<Byte>)
    requires Sendable(f, padding)
    ensures |f.data| <= STEP && Routed(Frame(r, f) + padding, true) == ToReassembly(Packet(r.src, r.dst, r.id, f))
  {
    hide Routed; hide Frame;
    RoutedFrame(r, f, padding);
  }

  /** The fragments of a payload too long for one frame, padded to the shortest frame that is looked at. */
  lemma PiecesSendable(from: Half, to: Half, payload: seq<Byte>, pads: seq<seq<Byte>>)
    requires 1472 < |payload| <= 65507
    requires |pads| == |Pieces(Datagram(from, to, payload), 0)|
    requires forall i :: 0 <= i < |pads| ==> |Pieces(Datagram(from, to, payload), 0)[i].data| + |pads[i]| >= 8
    ensures forall i :: 0 <= i < |pads| ==> Sendable(Pieces(Datagram(from, to, payload), 0)[i], pads[i])
  {
    hide Pieces; hide Datagram; hide Tiles;
    var d := Datagram(from, to, payload);
    DatagramIs(from, to, payload);
    PiecesTile(d, 0);
    forall i | 0 <= i < |pads| ensures Sendable(Pieces(d, 0)[i], pads[i]) {
      PieceAt(d, 0, i);
    }
  }

  /**
   The frames that the fragmenter emits when all of them are accepted, padded so that each is looked at, and sent
   back at times within the timeout: the relay sends exactly the payload, once, to the right port.
   */
  lemma FramesRoundTrip(relay: Relay, cfg: Config, o: Ideal, r: Route, from: Half, to: Half, payload: seq<Byte>,
                        pads: seq<seq<Byte>>, nows: seq<int>)
    requires var k := Key(r.src, r.dst, r.id); Represents(relay, cfg, o) && k !in o.open && |o.open| < SLOTS && AllTimely(o, nows)
    requires 1472 < |payload| <= 65507 && SocketFor(cfg, Datagram(from, to, payload)) >= 0
    requires |pads| == |nows| == |Pieces(Datagram(from, to, payload), 0)|
    requires forall i :: 0 <= i < |pads| ==> |Pieces(Datagram(from, to, payload), 0)[i].data| + |pads[i]| >= 8
    ensures var k, d := Key(r.src, r.dst, r.id), Datagram(from, to, payload);
            && (forall i :: 0 <= i < |pads| ==> |Pieces(d, 0)[i].data| <= STEP)
            && SentFor(Run(relay, cfg, Received(Padded(Frames(r, Pieces(d, 0)), pads), nows)).sent, k) ==
               SentFor(relay.sent, k) + [Sent(k, SocketFor(cfg, d), to, payload)]
  {
    hide Pieces; hide Datagram; hide Run; hide SentFor; hide SocketFor; hide Represents; hide AllTimely; hide Received; hide Padded; hide Frames; hide Fed;
    var d := Datagram(from, to, payload);
    PiecesSendable(from, to, payload, pads);
    FramesReceived(r, Pieces(d, 0), pads, nows);
    RoundTrip(relay, cfg, o, Key(r.src, r.dst, r.id), from, to, payload, nows);
  }

  /** A payload of 1473 bytes leaves a tail of one byte, whose frame is not taken. */
  lemma TailLost(r: Route, from: Half, to: Half, payload: seq<Byte>)
    requires |payload| == 1473
    ensures var fs := Pieces(Datagram(from, to, payload), 0);
            |fs| == 2 && |fs[1].data| == 1 && !Routed(Frame(r, fs[1]), true).ToReassembly?
  {
    hide Datagram; hide Routed; hide Frame; hide Tiles; hide Pieces;
    var d := Datagram(from, to, payload);
    DatagramIs(from, to, payload);
    PiecesTile(d, 0);
    PieceAt(d, 0, 1);
    var f := Pieces(d, 0)[1];
    assert Frame(r, f) + [] == Frame(r, f);
    RoutedFrame(r, f, []);
  }

  /** The i-th fragment. */
  lemma {:induction false} PieceAt(d: seq<Byte>, offset: nat, i: nat)
    requires offset < |d| && offset % STEP == 0 && i < Count(|d| - offset)
    ensures |Pieces(d, offset)| == Count(|d| - offset)
    ensures var f := Pieces(d, offset)[i];
            && f.offset == offset + i * STEP && f.offset < |d| && f.offset % 8 == 0
            && |f.data| == PieceLength(|d|, f.offset) && 0 < |f.data| && (f.more <==> f.offset + |f.data| < |d|)
    ensures i == Count(|d| - offset) - 1 ==> |Pieces(d, offset)[i].data| == LastLength(|d|)
    ensures i < Count(|d| - offset) - 1 ==> |Pieces(d, offset)[i].data| == STEP
    decreases i
  {
    hide Pieces; hide Piece; hide Tiles;
    PiecesTile(d, offset);
    PiecesUnfold(d, offset);
    PieceIs(d, offset);
    if i > 0 {
      OneMore(|d| - offset);
      PieceAt(d, offset + STEP, i - 1);
    } else {
      LastIs(|d|, offset);
    }
  }

  function LastLength(total: int): int { if total % STEP == 0 then STEP else total % STEP }

  lemma LastIs(total: int, offset: nat)
    requires 0 <= offset < total && offset % STEP == 0
    ensures Count(total - offset) == 1 ==> PieceLength(total, offset) == LastLength(total)
    ensures Count(total - offset) > 1 ==> PieceLength(total, offset) == STEP
  {
  }

  // ---- the relay as the source keeps it ----

  lemma ExpireUnfold(r: Relay, now: int, i: nat)
    requires i <= SLOTS
    ensures Expire(r, now, i) ==
            if i == SLOTS then r
            else Expire(Relay(r.slots[i := Aged(r.slots[i], now)], r.dropped + (if Stale(r.slots[i], now) then 1 else 0), r.sent), now, i + 1)
  {
  }

  class Reassembler {
    var slots: Slots
    var dropped: nat
    var sent: seq<Sent>

    function View(): Relay
      reads this
    {
      Relay(slots, dropped, sent)
    }

    /** reasm_reset(). */
    constructor ()
      ensures forall i :: 0 <= i < SLOTS ==> !slots[i].used
      ensures dropped == 0 && sent == []
    {
      slots := seq(SLOTS, _ => Slot(false, Key(0, 0, 0), 0, 0, 0, 0, 0, []));
      dropped, sent := 0, [];
    }

    /** reasm_lookup(). */
    method Lookup(k: Key) returns (i: nat)
      ensures i == Find(slots, k, 0)
    {
      i := 0;
      while i < SLOTS
        invariant i <= SLOTS && Find(slots, k, 0) == Find(slots, k, i)
      {
        if slots[i].used && slots[i].key == k { return; }
        i := i + 1;
      }
    }

    /** reasm_expire(). */
    method ExpireAll(now: int)
      modifies this
      ensures View() == Expire(old(View()), now, 0)
    {
      hide Expire;
      var i := 0;
      while i < SLOTS
        invariant 0 <= i <= SLOTS && Expire(View(), now, i) == Expire(old(View()), now, 0)
      {
        ExpireUnfold(View(), now, i);
        if slots[i].used && now - slots[i].started > TIMEOUT {
          slots := slots[i := slots[i].(used := false)];
          dropped := dropped + 1;
        } else {
          assert slots[i := slots[i]] == slots;
        }
        i := i + 1;
      }
      ExpireUnfold(View(), now, i);
    }

    /** reasm_claim(). */
    method ClaimSlot(k: Key, now: int) returns (i: nat)
      modifies this
      ensures i == Claim(old(slots), k) && View() == Claimed(old(View()), k, now)
    {
      hide Find; hide Oldest;
      i := Lookup(k);
      if i == SLOTS {
        i := 0;
        while i < SLOTS && slots[i].used
          invariant i <= SLOTS && Free(slots, 0) == Free(slots, i)
        {
          i := i + 1;
        }
      }
      if i == SLOTS {
        i := PickOldest();
        dropped := dropped + 1;
      }
      slots := slots[i := slots[i].(used := true, key := k, next := 0, total := 0, started := now)];
    }

    method PickOldest() returns (i: nat)
      ensures i == Oldest(slots, 0, 1)
    {
      i := 0;
      var j := 1;
      while j < SLOTS
        invariant i < j <= SLOTS && Oldest(slots, 0, 1) == Oldest(slots, i, j)
      {
        if slots[j].started < slots[i].started { i := j; }
        j := j + 1;
      }
    }

    method AppendTo(i: nat, e: Event) returns (taken: bool)
      requires i < SLOTS && e.f.offset <= |slots[i].data|
      modifies this
      ensures (taken, View()) == Append(old(View()), i, e)
    {
      var f := e.f;
      if f.offset + |f.data| > MAX {
        slots := slots[i := slots[i].(used := false)];
        dropped := dropped + 1;
        return true;
      }
      var s := slots[i];
      s := s.(data := s.data[..f.offset] + f.data);
      s := s.(next := f.offset + |f.data|);
      if !f.more { s := s.(total := s.next); }
      if s.total == 0 || s.next < s.total {
        slots := slots[i := s];
        return true;
      }
      slots := slots[i := s.(used := false)];
      if s.total < 8 || !e.allow || !e.sendOk {
        dropped := dropped + 1;
      } else {
        sent := sent + [Sent(s.key, s.sock, s.port, s.data[8..s.total])];
      }
      return true;
    }

    /** relay_tx_fragment(). */
    method TxFragment(cfg: Config, e: Event) returns (taken: bool)
      requires Filled(slots)
      modifies this
      ensures (taken, View()) == Absorb(old(View()), cfg, e)
    {
      hide Find; hide Claim; hide Append; hide SocketFor;
      var f := e.f;
      if f.data == [] { return false; }
      var i;
      if f.offset == 0 {
        if |f.data| < 8 { return false; }
        var sock := SocketFor(cfg, f.data);
        if sock < 0 { return false; }
        i := ClaimSlot(e.key, e.now);
        slots := slots[i := slots[i].(port := Joined(f.data[2], f.data[3]), sock := sock)];
      } else {
        i := Lookup(e.key);
        if i == SLOTS { return false; }
        if f.offset != slots[i].next {
          slots := slots[i := slots[i].(used := false)];
          dropped := dropped + 1;
          return false;
        }
      }
      taken := AppendTo(i, e);
    }
  }
}
