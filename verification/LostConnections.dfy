/** Connections that are lost: on error paths of a dial, and when requests create transports concurrently.
    `getTransport` looks for a transport and then dials, and others may dial, redial or sweep in between. */
module LostConnections {
  import opened Text
  import opened Machine
  import opened ConnectionHandoff

  // ---- Connections nobody closes or uses ------------------------------------------------------------------

  /** The handshake of the first attempt failed in a way that is tried again. */
  predicate Retries(cfg: Config, first: Attempt) {
    first.HandshakeFails? && if first.curve then cfg.autoRetry else cfg.proactive && cfg.ja3
  }

  /** Attempts that are given up between dialling and use. */
  predicate Rejected(a: Attempt) {
    a.SpecRejected? || a.PresetRejected?
  }

  predicate Unparsable(cfg: Config, a: Attempt) {
    a.Negotiated? && a.h2 && cfg.badFingerprint
  }

  /** A dial leaves a connection open that nobody holds exactly on these inputs. */
  lemma DroppedIff(cfg: Config, s: State, addr: Address, first: Attempt, second: Attempt)
    requires Inv(s)
    ensures Dial(cfg, s, addr, first, second).state.dropped != s.dropped <==>
            addr !in s.slots &&
            (|| Rejected(first)
             || (Unparsable(cfg, first) && addr !in s.transports)
             || (Retries(cfg, first) && (Rejected(second) || Unparsable(cfg, second))))
  {
    assert Fates(s, s.next) == 0 && Fates(s, s.next + 1) == 0;
  }

  /** For instance a JA3 that the compiler rejects: the connection dialled for it stays open. */
  lemma RejectedDrops(cfg: Config, s: State, addr: Address, first: Attempt, second: Attempt)
    requires Inv(s) && addr !in s.slots && Rejected(first)
    ensures s.next in Dial(cfg, s, addr, first, second).state.dropped
  {
    hide Fates;
  }

  // ---- Creating transports concurrently ----------------------------------------------------------------------

  /** The cache together with the requests that use it. `looking`: addresses whose mutex is held by a
      request that found no transport and is about to dial. `dialable`: addresses for which a TLS transport
      was ever made; a request may hold it, and redial through it, even after a sweep. `discarded`:
      connections that `getTransport` got from its dial and forgot. `waiting`: requests that have their
      transport cached and will read it again. `panics`: requests that then found none. */
  datatype World = World(
    cache: State,
    looking: set<Address>,
    dialable: set<Address>,
    discarded: set<nat>,
    waiting: multiset<Address>,
    panics: nat
  )

  datatype Move =
    | Redial(addr: Address, first: Attempt, second: Attempt)
    | Look(addr: Address)
    | Predial(addr: Address, first: Attempt, second: Attempt)
    | Http(addr: Address)
    | Use(addr: Address)
    | SweepAll(keep: Address)

  const WORLD: World := World(EMPTY, {}, {}, {}, multiset{}, 0)

  /** One move of any request. Every request parses the HTTP/2 fingerprint first, so with a bad one none gets
      as far as the cache. */
  function WorldStep(cfg: Config, w: World, m: Move): Option<World> {
    match m
    case Redial(addr, first, second) =>
      if addr !in w.dialable then None else Some(w.(cache := Dial(cfg, w.cache, addr, first, second).state))
    case Look(addr) =>
      if cfg.badFingerprint then None
      else if addr in w.cache.transports then Some(w.(waiting := w.waiting + multiset{addr}))
      else if addr in w.looking then None
      else Some(w.(looking := w.looking + {addr}))
    case Predial(addr, first, second) =>
      if addr !in w.looking then None
      else
        var o := Dial(cfg, w.cache, addr, first, second);
        Some(w.(cache := o.state,
                looking := w.looking - {addr},
                dialable := w.dialable + TlsTransport(o.state, addr),
                discarded := if o.result.Conn? then w.discarded + {o.result.id} else w.discarded,
                waiting := if Succeeds(o.result) then w.waiting + multiset{addr} else w.waiting))
    case Http(addr) =>
      if cfg.badFingerprint then None
      else Some(w.(cache := Step(cfg, w.cache, PlainTransport(addr)), waiting := w.waiting + multiset{addr}))
    case Use(addr) =>
      if addr !in w.waiting then None
      else Some(w.(waiting := w.waiting - multiset{addr},
                   panics := if addr in w.cache.transports then w.panics else w.panics + 1))
    case SweepAll(keep) => Some(w.(cache := CloseIdle(w.cache, keep)))
  }

  /** The address, if its cached transport dials TLS. */
  function TlsTransport(s: State, addr: Address): set<Address> {
    if addr in s.transports && !s.transports[addr].Plain? then {addr} else {}
  }

  predicate Succeeds(r: Result) {
    r.Conn? || r == Failure(ProtocolNegotiated)
  }

  function WorldStepper(cfg: Config): (World, Move) -> Option<World> {
    (w: World, m: Move) => WorldStep(cfg, w, m)
  }

  ghost predicate WorldInv(cfg: Config, w: World) {
    Inv(w.cache) && (forall c :: c in w.discarded ==> c in w.cache.returned) &&
    (cfg.badFingerprint ==> w.looking == {} && w.dialable == {})
  }

  lemma DialReturns(cfg: Config, s: State, addr: Address, first: Attempt, second: Attempt)
    ensures var o := Dial(cfg, s, addr, first, second);
            o.state.returned == s.returned + if o.result.Conn? then [o.result.id] else []
  {
  }

  lemma MoveKeepsInv(cfg: Config, w: World, m: Move)
    requires WorldInv(cfg, w) && WorldStep(cfg, w, m).Some?
    ensures WorldInv(cfg, WorldStep(cfg, w, m).value)
  {
    hide Dial, CloseIdle, Inv;
    match m
    case Redial(addr, first, second) =>
      DialKeepsInv(cfg, w.cache, addr, first, second);
      DialReturns(cfg, w.cache, addr, first, second);
    case Predial(addr, first, second) =>
      DialKeepsInv(cfg, w.cache, addr, first, second);
      DialReturns(cfg, w.cache, addr, first, second);
    case SweepAll(keep) => SweepKeepsInv(w.cache, keep);
    case Http(addr) => PlainKeepsInv(w.cache, addr);
    case _ =>
  }

  /** Over every interleaving of requests, redials and sweeps each connection meets exactly one fate, and
      one that `getTransport` forgot was returned by a dial, to it alone. */
  lemma WorldHandsOffOnce(cfg: Config, moves: seq<Move>)
    requires Run(WorldStepper(cfg), WORLD, moves).Some?
    ensures WorldInv(cfg, Run(WorldStepper(cfg), WORLD, moves).value)
  {
    assert WorldInv(cfg, WORLD);
    hide WorldStep, WorldInv;
    var inv := (w: World) => WorldInv(cfg, w);
    forall w, m | inv(w) && WorldStepper(cfg)(w, m).Some?
      ensures inv(WorldStepper(cfg)(w, m).value)
    {
      MoveKeepsInv(cfg, w, m);
    }
    RunKeeps(WorldStepper(cfg), inv, WORLD, moves);
  }

  predicate Dials(m: Move) {
    m.Redial? || m.Predial?
  }

  /** Over every run: a move leaves a connection open that nobody holds if and only if it dials with an empty
      slot and an attempt of it is rejected between dialling and use. */
  lemma MoveDropsIff(cfg: Config, moves: seq<Move>, m: Move)
    requires Run(WorldStepper(cfg), WORLD, moves).Some?
    ensures var w := Run(WorldStepper(cfg), WORLD, moves).value;
            WorldStep(cfg, w, m).Some? ==>
              (WorldStep(cfg, w, m).value.cache.dropped != w.cache.dropped <==>
               Dials(m) && m.addr !in w.cache.slots &&
               (Rejected(m.first) || (Retries(cfg, m.first) && Rejected(m.second))))
  {
    hide Run, Dial, Inv;
    WorldHandsOffOnce(cfg, moves);
    var w := Run(WorldStepper(cfg), WORLD, moves).value;
    if WorldStep(cfg, w, m).Some? && Dials(m) {
      DroppedIff(cfg, w.cache, m.addr, m.first, m.second);
    }
  }

  /** Attempts that end in a usable connection although a transport exists. */
  predicate Connects(cfg: Config, first: Attempt, second: Attempt) {
    first.Negotiated? || (Retries(cfg, first) && second.Negotiated? && !Unparsable(cfg, second))
  }

  /** The dial of `getTransport` loses a connection if and only if, since its check, a connection was parked
      for the address, or a transport was cached and the dial succeeds. */
  lemma DiscardIff(cfg: Config, w: World, m: Move)
    requires WorldInv(cfg, w) && m.Predial? && WorldStep(cfg, w, m).Some?
    ensures WorldStep(cfg, w, m).value.discarded != w.discarded <==>
            m.addr in w.cache.slots || (m.addr in w.cache.transports && Connects(cfg, m.first, m.second))
  {
    var s := w.cache;
    if m.addr in s.slots {
      assert Fates(s, s.slots[m.addr]) <= 1 && s.slots[m.addr] in s.slots.Values;
      assert s.slots[m.addr] !in s.returned;
    }
    assert Fates(s, s.next) == 0 && Fates(s, s.next + 1) == 0;
    assert s.next !in s.returned && s.next + 1 !in s.returned;
  }

  predicate Leaves(m: Move, addr: Address) {
    !((m.Redial? || m.Predial? || m.Http?) && m.addr == addr)
  }

  /** If nobody else dials the address or makes it a plain transport meanwhile, nothing is lost. */
  lemma {:induction false} UndisturbedKeepsAll(
      cfg: Config, w: World, addr: Address, between: seq<Move>, first: Attempt, second: Attempt)
    requires WorldInv(cfg, w) && addr !in w.cache.transports && addr in w.looking
    requires Run(WorldStepper(cfg), w, between).Some? && forall i :: 0 <= i < |between| ==> Leaves(between[i], addr)
    ensures var t := Run(WorldStepper(cfg), w, between).value;
            WorldStep(cfg, t, Predial(addr, first, second)).Some? &&
            WorldStep(cfg, t, Predial(addr, first, second)).value.discarded == t.discarded
    decreases |between|
  {
    hide WorldStep, Fates;
    if between == [] {
      LeavesAddress(cfg, w, addr, Predial(addr, first, second));
      DiscardIff(cfg, w, Predial(addr, first, second));
    } else {
      MoveKeepsInv(cfg, w, between[0]);
      LeavesAddress(cfg, w, addr, between[0]);
      UndisturbedKeepsAll(cfg, WorldStep(cfg, w, between[0]).value, addr, between[1..], first, second);
    }
  }

  lemma LeavesAddress(cfg: Config, w: World, addr: Address, m: Move)
    requires addr !in w.cache.transports && addr in w.looking
    ensures m.Predial? && m.addr == addr ==> WorldStep(cfg, w, m).Some?
    ensures Leaves(m, addr) && WorldStep(cfg, w, m).Some? ==>
              addr !in WorldStep(cfg, w, m).value.cache.transports && addr in WorldStep(cfg, w, m).value.looking
  {
  }

  // ---- Using a transport after a sweep -----------------------------------------------------------------------

  predicate Sweeps(m: Move, addr: Address) {
    m.SweepAll? && m.keep != addr
  }

  /** The move puts a transport for the address into the cache if there is none. */
  predicate Caches(cfg: Config, m: Move, addr: Address) {
    (m.Http? && m.addr == addr) || (Dials(m) && m.addr == addr && Connects(cfg, m.first, m.second))
  }

  /** The last sweep that hit the address has not been made good. */
  predicate Swept(cfg: Config, moves: seq<Move>, addr: Address) {
    exists i :: 0 <= i < |moves| && Sweeps(moves[i], addr) && Uncached(cfg, moves, i + 1, addr)
  }

  predicate Uncached(cfg: Config, moves: seq<Move>, from: nat, addr: Address) {
    forall j :: from <= j < |moves| ==> !Caches(cfg, moves[j], addr)
  }

  lemma CachedAfter(cfg: Config, w: World, m: Move, addr: Address)
    requires WorldInv(cfg, w) && WorldStep(cfg, w, m).Some?
    ensures addr in WorldStep(cfg, w, m).value.cache.transports <==>
            Caches(cfg, m, addr) || (addr in w.cache.transports && !Sweeps(m, addr))
  {
    hide Fates, Dial, Connects;
    if Dials(m) {
      DialCaches(cfg, w.cache, m.addr, m.first, m.second, addr);
    }
  }

  lemma DialCaches(cfg: Config, s: State, addr: Address, first: Attempt, second: Attempt, x: Address)
    requires Inv(s) && !cfg.badFingerprint
    ensures x in Dial(cfg, s, addr, first, second).state.transports <==>
            x in s.transports || (x == addr && Connects(cfg, first, second))
  {
    hide Fates;
  }

  /** A transport is cached at the end of a run exactly when some move cached it, or it was there, and no sweep
      hit it since. */
  lemma {:induction false} CachedIff(cfg: Config, w: World, moves: seq<Move>, addr: Address)
    requires WorldInv(cfg, w) && Run(WorldStepper(cfg), w, moves).Some?
    ensures addr in Run(WorldStepper(cfg), w, moves).value.cache.transports <==>
            !Swept(cfg, moves, addr) && (addr in w.cache.transports || !Uncached(cfg, moves, 0, addr))
    decreases |moves|
  {
    hide WorldStep, WorldInv;
    if moves != [] {
      var m, rest := moves[0], moves[1..];
      var next := WorldStep(cfg, w, m).value;
      MoveKeepsInv(cfg, w, m);
      CachedAfter(cfg, w, m, addr);
      CachedIff(cfg, next, rest, addr);
      SweptCons(cfg, m, rest, addr);
      assert [m] + rest == moves;
    }
  }

  lemma SweptCons(cfg: Config, m: Move, rest: seq<Move>, addr: Address)
    ensures Swept(cfg, [m] + rest, addr) <==>
            Swept(cfg, rest, addr) || (Sweeps(m, addr) && Uncached(cfg, rest, 0, addr))
    ensures Uncached(cfg, [m] + rest, 0, addr) <==> !Caches(cfg, m, addr) && Uncached(cfg, rest, 0, addr)
  {
    var moves := [m] + rest;
    assert forall j :: 0 <= j < |rest| ==> moves[j + 1] == rest[j];
    forall i: nat | i <= |rest|
      ensures Uncached(cfg, moves, i + 1, addr) <==> Uncached(cfg, rest, i, addr)
    {
      if Uncached(cfg, moves, i + 1, addr) {
        forall j | i <= j < |rest| ensures !Caches(cfg, rest[j], addr) { assert !Caches(cfg, moves[j + 1], addr); }
      }
    }
    if Swept(cfg, rest, addr) {
      var i :| 0 <= i < |rest| && Sweeps(rest[i], addr) && Uncached(cfg, rest, i + 1, addr);
      assert Sweeps(moves[i + 1], addr) && Uncached(cfg, moves, i + 2, addr);
    }
    if Sweeps(m, addr) && Uncached(cfg, rest, 0, addr) {
      assert Sweeps(moves[0], addr) && Uncached(cfg, moves, 1, addr);
    }
    if Swept(cfg, moves, addr) {
      var i :| 0 <= i < |moves| && Sweeps(moves[i], addr) && Uncached(cfg, moves, i + 1, addr);
      if i > 0 {
        assert Sweeps(rest[i - 1], addr) && Uncached(cfg, rest, i, addr);
      }
    }
    if Uncached(cfg, moves, 0, addr) {
      assert !Caches(cfg, moves[0], addr);
      assert Uncached(cfg, moves, 1, addr);
    }
  }

  /** A request that was told its transport is cached, and reads it again after other moves, panics on a missing
      transport if and only if a sweep for another address came in between and nobody cached it again. */
  lemma UsePanicsIff(cfg: Config, w: World, addr: Address, between: seq<Move>)
    requires WorldInv(cfg, w) && addr in w.cache.transports && Run(WorldStepper(cfg), w, between).Some?
    ensures var t := Run(WorldStepper(cfg), w, between).value;
            WorldStep(cfg, t, Use(addr)).Some? ==>
              (WorldStep(cfg, t, Use(addr)).value.panics > t.panics <==> Swept(cfg, between, addr))
  {
    hide Run, WorldInv, Swept;
    CachedIff(cfg, w, between, addr);
  }

  /** A request is told so only when the transport is there. */
  lemma ToldOnlyIfCached(cfg: Config, w: World, m: Move, addr: Address)
    requires WorldInv(cfg, w) && WorldStep(cfg, w, m).Some?
    ensures WorldStep(cfg, w, m).value.waiting[addr] > w.waiting[addr] ==>
            addr in WorldStep(cfg, w, m).value.cache.transports
  {
    hide Fates;
  }

  // ---- Such runs exist -----------------------------------------------------------------------------------------

  lemma FollowWorld(cfg: Config, moves: seq<Move>, w: World, m: Move) returns (longer: seq<Move>, t: World)
    requires Run(WorldStepper(cfg), WORLD, moves) == Some(w) && WorldStep(cfg, w, m).Some?
    ensures Run(WorldStepper(cfg), WORLD, longer) == Some(t) && Some(t) == WorldStep(cfg, w, m)
  {
    longer, t := moves + [m], WorldStep(cfg, w, m).value;
    RunConcat(WorldStepper(cfg), WORLD, moves, [m]);
    RunCons(WorldStepper(cfg), w, m, []);
    assert [m] + [] == [m];
  }

  /** A connection is discarded: a request still redials through a transport that a sweep has removed, while a
      second request has looked for one and not dialled yet. */
  lemma DiscardReachable(cfg: Config, addr: Address, keep: Address) returns (moves: seq<Move>, w: World)
    requires keep != addr && !cfg.badFingerprint
    ensures Run(WorldStepper(cfg), WORLD, moves) == Some(w) && w.discarded == {1}
  {
    hide Run;
    var up := Negotiated(false);
    moves, w := SweptReachable(cfg, addr, keep);
    moves, w := FollowWorld(cfg, moves, w, Look(addr));
    moves, w := FollowWorld(cfg, moves, w, Redial(addr, up, up));
    moves, w := FollowWorld(cfg, moves, w, Predial(addr, up, up));
  }

  /** A request panics: its transport is swept before it reads the cache again. */
  lemma PanicReachable(cfg: Config, addr: Address, keep: Address) returns (moves: seq<Move>, w: World)
    requires keep != addr && !cfg.badFingerprint
    ensures Run(WorldStepper(cfg), WORLD, moves) == Some(w) && w.panics == 1
  {
    hide Run;
    moves, w := SweptReachable(cfg, addr, keep);
    moves, w := FollowWorld(cfg, moves, w, Use(addr));
  }

  lemma SweptReachable(cfg: Config, addr: Address, keep: Address) returns (moves: seq<Move>, w: World)
    requires keep != addr && !cfg.badFingerprint
    ensures Run(WorldStepper(cfg), WORLD, moves) == Some(w)
    ensures w == World(State(map[], map[], 1, [0], {}, {}), {}, {addr}, {}, multiset{addr}, 0)
  {
    var up := Negotiated(false);
    RunEmpty(WorldStepper(cfg), WORLD);
    hide Run;
    moves, w := FollowWorld(cfg, [], WORLD, Look(addr));
    moves, w := FollowWorld(cfg, moves, w, Predial(addr, up, up));
    moves, w := FollowWorld(cfg, moves, w, Redial(addr, up, up));
    moves, w := FollowWorld(cfg, moves, w, SweepAll(keep));
  }
}
