/** The transport cache and the one-shot connection slot of the round tripper. A handshake is needed to
    learn the protocol before a transport can be chosen; the connection it produced waits in a slot for
    the transport's own dial. Connections are numbered in the order in which they were dialled. */
module ConnectionHandoff {
  import opened Text
  import opened Machine

  type Address = string

  datatype Transport = Plain | Http1 | Http2

  /** The settings that steer a dial. `proactive`: a TLS 1.2 JA3 is upgraded before the first attempt;
      `ja3`: the caller gave one; `badFingerprint`: the HTTP/2 fingerprint does not parse. */
  datatype Config = Config(autoRetry: bool, proactive: bool, ja3: bool, badFingerprint: bool)

  /** How far one attempt gets. */
  datatype Attempt = Unreachable | SpecRejected | PresetRejected | HandshakeFails(curve: bool) | Negotiated(h2: bool)

  datatype Scheme = HttpScheme | HttpsScheme | OtherScheme

  datatype Problem = BadScheme | DialFailed | BadSpec | BadPreset | BadHandshake | BadFingerprint | ProtocolNegotiated

  datatype Result = Conn(id: nat) | Failure(problem: Problem)

  /** `next` numbers the next connection. Every connection made so far waits in a slot, was returned,
      was closed here, or was dropped on an error path without being closed. */
  datatype State = State(
    transports: map<Address, Transport>,
    slots: map<Address, nat>,
    next: nat,
    returned: seq<nat>,
    closed: set<nat>,
    dropped: set<nat>
  )

  const EMPTY: State := State(map[], map[], 0, [], {}, {})

  // ---- One dial, as the lock makes it atomic -----------------------------------------------------------

  datatype Outcome = Outcome(state: State, result: Result)

  function Drop(s: State, p: Problem): Outcome {
    Outcome(s.(next := s.next + 1, dropped := s.dropped + {s.next}), Failure(p))
  }

  function CloseNew(s: State): State {
    s.(next := s.next + 1, closed := s.closed + {s.next})
  }

  function ReturnNew(s: State): Outcome {
    Outcome(s.(next := s.next + 1, returned := s.returned + [s.next]), Conn(s.next))
  }

  /** Cache the transport the handshake calls for and leave the connection in the slot. */
  function Park(s: State, addr: Address, h2: bool): Outcome {
    Outcome(s.(transports := s.transports[addr := if h2 then Http2 else Http1], slots := s.slots[addr := s.next],
        next := s.next + 1),
            Failure(ProtocolNegotiated))
  }

  /** Both retry functions. Unlike the first attempt they look at the fingerprint before the cache. */
  function Retry(cfg: Config, s: State, addr: Address, a: Attempt): Outcome {
    match a
    case Unreachable => Outcome(s, Failure(DialFailed))
    case SpecRejected => Drop(s, BadSpec)
    case PresetRejected => Drop(s, BadPreset)
    case HandshakeFails(_) => Outcome(CloseNew(s), Failure(BadHandshake))
    case Negotiated(h2) =>
      if h2 && cfg.badFingerprint then Drop(s, BadFingerprint)
      else if addr in s.transports then ReturnNew(s)
      else Park(s, addr, h2)
  }

  function Dial(cfg: Config, s: State, addr: Address, first: Attempt, second: Attempt): Outcome {
    if addr in s.slots then
      Outcome(s.(slots := s.slots - {addr}, returned := s.returned + [s.slots[addr]]), Conn(s.slots[addr]))
    else
      match first
      case Unreachable => Outcome(s, Failure(DialFailed))
      case SpecRejected => Drop(s, BadSpec)
      case PresetRejected => Drop(s, BadPreset)
      case HandshakeFails(curve) =>
        if (curve && cfg.autoRetry) || (!curve && cfg.proactive && cfg.ja3) then Retry(cfg, CloseNew(s), addr, second)
        else Outcome(CloseNew(s), Failure(BadHandshake))
      case Negotiated(h2) =>
        if addr in s.transports then ReturnNew(s)
        else if h2 && cfg.badFingerprint then Drop(s, BadFingerprint)
        else Park(s, addr, h2)
  }

  /** Closing idle connections spares at most one address. */
  function CloseIdle(s: State, keep: Address): State {
    s.(transports := map a | a in s.transports && a == keep :: s.transports[a],
       slots := map a | a in s.slots && a == keep :: s.slots[a],
       closed := s.closed + set a | a in s.slots && a != keep :: s.slots[a])
  }

  // ---- The round tripper -------------------------------------------------------------------------------

  class RoundTripper {
    const cfg: Config
    var transports: map<Address, Transport>
    var slots: map<Address, nat>
    var next: nat
    var returned: seq<nat>
    var closed: set<nat>
    var dropped: set<nat>

    function View(): State
      reads this
    {
      State(transports, slots, next, returned, closed, dropped)
    }

    constructor (cfg: Config)
      ensures this.cfg == cfg && View() == EMPTY
    {
      this.cfg := cfg;
      transports, slots, next, returned, closed, dropped := map[], map[], 0, [], {}, {};
    }

    /** A raw connection that turned out unusable before its handshake is forgotten, not closed. */
    method Forget(p: Problem) returns (r: Result)
      modifies this
      ensures Outcome(View(), r) == Drop(old(View()), p)
    {
      dropped := dropped + {next};
      next := next + 1;
      r := Failure(p);
    }

    /** `retryWithTLS13CompatibleCurves` and `retryWithOriginalTLS12JA3`. */
    method RetryDial(addr: Address, a: Attempt) returns (r: Result)
      modifies this
      ensures Outcome(View(), r) == Retry(cfg, old(View()), addr, a)
    {
      match a {
        case Unreachable => return Failure(DialFailed);
        case SpecRejected => r := Forget(BadSpec); return;
        case PresetRejected => r := Forget(BadPreset); return;
        case HandshakeFails(_) =>
          closed, next := closed + {next}, next + 1;
          return Failure(BadHandshake);
        case Negotiated(h2) =>
          var conn := next;
          var exists_ := addr in transports;
          if h2 && cfg.badFingerprint {
            r := Forget(BadFingerprint);
            return;
          }
          next := next + 1;
          if !exists_ {
            transports := transports[addr := if h2 then Http2 else Http1];
          }
          if exists_ {
            returned := returned + [conn];
            return Conn(conn);
          }
          slots := slots[addr := conn];
          return Failure(ProtocolNegotiated);
      }
    }

    /** `dialTLS`. */
    method DialTls(addr: Address, first: Attempt, second: Attempt) returns (r: Result)
      modifies this
      ensures Outcome(View(), r) == Dial(cfg, old(View()), addr, first, second)
    {
      if addr in slots {
        var conn := slots[addr];
        slots := slots - {addr};
        returned := returned + [conn];
        return Conn(conn);
      }
      match first {
        case Unreachable => return Failure(DialFailed);
        case SpecRejected => r := Forget(BadSpec);
        case PresetRejected => r := Forget(BadPreset);
        case HandshakeFails(curve) =>
          closed, next := closed + {next}, next + 1;
          if curve && cfg.autoRetry {
            r := RetryDial(addr, second);
          } else if curve {
            r := Failure(BadHandshake);
          } else if cfg.proactive && cfg.ja3 {
            r := RetryDial(addr, second);
          } else {
            r := Failure(BadHandshake);
          }
        case Negotiated(h2) =>
          var conn := next;
          if addr in transports {
            next := next + 1;
            returned := returned + [conn];
            return Conn(conn);
          }
          if h2 && cfg.badFingerprint {
            r := Forget(BadFingerprint);
            return;
          }
          next := next + 1;
          transports := transports[addr := if h2 then Http2 else Http1];
          slots := slots[addr := conn];
          r := Failure(ProtocolNegotiated);
      }
    }

    /** `getTransport`, undisturbed: on success a transport is cached. The connection of its own dial is never
        returned here, so none is lost by ignoring the result. */
    method GetTransport(scheme: Scheme, addr: Address, first: Attempt, second: Attempt)
      returns (problem: Option<Problem>)
      requires Inv(View())
      modifies this
      ensures Inv(View()) && returned == old(returned)
      ensures problem.None? ==> addr in transports
      ensures problem.None? && scheme == HttpsScheme && addr !in old(transports) ==>
                addr in slots && addr !in old(slots) && slots[addr] >= old(next)
      ensures scheme == OtherScheme ==> problem == Some(BadScheme) && View() == old(View())
      ensures problem.Some? ==> transports == old(transports) && slots == old(slots)
    {
      if scheme == HttpScheme {
        PlainKeepsInv(View(), addr);
        transports := transports[addr := Plain];
        return None;
      }
      if scheme == OtherScheme {
        return Some(BadScheme);
      }
      if addr in transports {
        return None;
      }
      ghost var before := View();
      DialKeepsInv(cfg, before, addr, first, second);
      FirstDial(cfg, before, addr, first, second);
      var r := DialTls(addr, first, second);
      if r == Failure(ProtocolNegotiated) || r.Conn? {
        return None;
      }
      return Some(r.problem);
    }

    /** `CloseIdleConnections`: both loops visit the addresses in any order. */
    method CloseIdleConnections(keep: Address)
      modifies this
      ensures View() == CloseIdle(old(View()), keep)
    {
      transports := SweepTransports(transports, keep);
      var shut;
      slots, shut := SweepSlots(slots, keep);
      closed := closed + shut;
    }
  }

  /** The first loop of the sweep; addresses come in any order. */
  method SweepTransports(transports: map<Address, Transport>, keep: Address) returns (left: map<Address, Transport>)
    ensures left == map a | a in transports && a == keep :: transports[a]
  {
    left := transports;
    var todo := transports.Keys;
    while todo != {}
      invariant todo <= left.Keys <= transports.Keys
      invariant forall a :: a in left ==> left[a] == transports[a] && (a in todo || a == keep)
      invariant keep in transports ==> keep in left
      decreases |todo|
    {
      var a :| a in todo;
      todo := todo - {a};
      if a != keep {
        left := left - {a};
      }
    }
  }

  /** The second loop: waiting connections are closed before their slots are emptied. */
  method SweepSlots(slots: map<Address, nat>, keep: Address) returns (left: map<Address, nat>, shut: set<nat>)
    ensures left == map a | a in slots && a == keep :: slots[a]
    ensures shut == set a | a in slots && a != keep :: slots[a]
  {
    left, shut := slots, {};
    var todo := slots.Keys;
    while todo != {}
      invariant todo <= left.Keys <= slots.Keys
      invariant forall a :: a in left ==> left[a] == slots[a] && (a in todo || a == keep)
      invariant keep in slots ==> keep in left
      invariant shut == set a | a in slots && a !in left :: slots[a]
      decreases |todo|
    {
      var a :| a in todo;
      todo := todo - {a};
      if a != keep {
        shut := shut + {left[a]};
        left := left - {a};
      }
    }
    assert forall a :: a in slots ==> (a !in left <==> a != keep);
  }

  // ---- Runs ------------------------------------------------------------------------------------------------

  /** `PlainTransport` is what a request with the http scheme does to the cache. */
  datatype Action = DialTo(addr: Address, first: Attempt, second: Attempt) | Sweep(keep: Address)
      | PlainTransport(addr: Address)

  function Stepper(cfg: Config): (State, Action) -> Option<State> {
    (s: State, a: Action) => Some(Step(cfg, s, a))
  }

  function Step(cfg: Config, s: State, a: Action): State {
    match a
    case DialTo(addr, first, second) => Dial(cfg, s, addr, first, second).state
    case Sweep(keep) => CloseIdle(s, keep)
    case PlainTransport(addr) => s.(transports := s.transports[addr := Plain])
  }

  /** How many of the four fates connection `c` has met, repeated returns counted. */
  ghost function Fates(s: State, c: nat): nat {
    (if c in s.slots.Values then 1 else 0) + multiset(s.returned)[c] + (if c in s.closed then 1 else 0) +
        (if c in s.dropped then 1 else 0)
  }

  ghost predicate Inv(s: State) {
    s.slots.Keys <= s.transports.Keys &&
    (forall a, b :: a in s.slots && b in s.slots && s.slots[a] == s.slots[b] ==> a == b) &&
    (forall c: nat :: Fates(s, c) == if c < s.next then 1 else 0)
  }

  lemma NewFate(s: State, t: State, c: nat)
    requires Inv(s) && t.next == s.next + 1 && t.slots == s.slots
    requires || (t.returned == s.returned + [s.next] && t.closed == s.closed && t.dropped == s.dropped)
             || (t.returned == s.returned && t.closed == s.closed + {s.next} && t.dropped == s.dropped)
             || (t.returned == s.returned && t.closed == s.closed && t.dropped == s.dropped + {s.next})
    ensures Fates(t, c) == if c < t.next then 1 else 0
  {
    assert Fates(s, c) == if c < s.next then 1 else 0;
    assert Fates(s, s.next) == 0;
  }

  lemma NewKeepsInv(s: State, t: State)
    requires Inv(s) && t.next == s.next + 1 && t.slots == s.slots && t.transports == s.transports
    requires || (t.returned == s.returned + [s.next] && t.closed == s.closed && t.dropped == s.dropped)
             || (t.returned == s.returned && t.closed == s.closed + {s.next} && t.dropped == s.dropped)
             || (t.returned == s.returned && t.closed == s.closed && t.dropped == s.dropped + {s.next})
    ensures Inv(t)
  {
    hide Fates;
    forall c: nat
      ensures Fates(t, c) == if c < t.next then 1 else 0
    {
      NewFate(s, t, c);
    }
  }

  lemma ParkKeepsInv(s: State, addr: Address, h2: bool)
    requires Inv(s) && addr !in s.slots
    ensures Inv(Park(s, addr, h2).state)
  {
    var t := Park(s, addr, h2).state;
    assert Fates(s, s.next) == 0;
    assert t.slots.Values == s.slots.Values + {s.next} by {
      assert t.slots[addr] == s.next;
      forall a | a in s.slots ensures s.slots[a] in t.slots.Values { assert t.slots[a] == s.slots[a]; }
    }
    forall c: nat
      ensures Fates(t, c) == if c < t.next then 1 else 0
    {
      assert Fates(s, c) == if c < s.next then 1 else 0;
    }
  }

  lemma PopKeepsInv(s: State, addr: Address)
    requires Inv(s) && addr in s.slots
    ensures Inv(s.(slots := s.slots - {addr}, returned := s.returned + [s.slots[addr]]))
  {
    var t := s.(slots := s.slots - {addr}, returned := s.returned + [s.slots[addr]]);
    assert t.slots.Values == s.slots.Values - {s.slots[addr]} by {
      forall a | a in s.slots && a != addr ensures s.slots[a] in t.slots.Values { assert t.slots[a] == s.slots[a]; }
    }
    forall c: nat
      ensures Fates(t, c) == if c < t.next then 1 else 0
    {
      assert Fates(s, c) == if c < s.next then 1 else 0;
    }
  }

  lemma SweepKeepsInv(s: State, keep: Address)
    requires Inv(s)
    ensures Inv(CloseIdle(s, keep)) && CloseIdle(s, keep).returned == s.returned
  {
    var t := CloseIdle(s, keep);
    forall c: nat
      ensures Fates(t, c) == if c < t.next then 1 else 0
    {
      assert Fates(s, c) == if c < s.next then 1 else 0;
      if c in s.slots.Values {
        var a :| a in s.slots && s.slots[a] == c;
        assert a == keep ==> t.slots[a] == c;
        assert a != keep ==> c in t.closed;
      }
    }
  }

  lemma RetryKeepsInv(cfg: Config, s: State, addr: Address, a: Attempt)
    requires Inv(s) && addr !in s.slots
    ensures Inv(Retry(cfg, s, addr, a).state)
  {
    hide Inv;
    var t := Retry(cfg, s, addr, a).state;
    if t.slots != s.slots {
      ParkKeepsInv(s, addr, a.h2);
    } else if t != s {
      NewKeepsInv(s, t);
    }
  }

  lemma DialKeepsInv(cfg: Config, s: State, addr: Address, first: Attempt, second: Attempt)
    requires Inv(s)
    ensures Inv(Dial(cfg, s, addr, first, second).state)
  {
    hide Inv, Retry;
    if addr in s.slots {
      PopKeepsInv(s, addr);
    } else if first.HandshakeFails? {
      NewKeepsInv(s, CloseNew(s));
      RetryKeepsInv(cfg, CloseNew(s), addr, second);
    } else if first.Negotiated? && addr in s.transports {
      NewKeepsInv(s, ReturnNew(s).state);
    } else {
      SameAsRetry(cfg, s, addr, first, second);
      RetryKeepsInv(cfg, s, addr, first);
    }
  }

  /** Apart from a failed handshake and a redial, a first attempt is treated like a retry. */
  lemma SameAsRetry(cfg: Config, s: State, addr: Address, first: Attempt, second: Attempt)
    requires addr !in s.slots && !first.HandshakeFails? && !(first.Negotiated? && addr in s.transports)
    ensures Dial(cfg, s, addr, first, second) == Retry(cfg, s, addr, first)
  {
  }

  lemma StepKeepsInv(cfg: Config, s: State, a: Action)
    requires Inv(s)
    ensures Inv(Step(cfg, s, a))
  {
    hide Dial, CloseIdle;
    match a
    case DialTo(addr, first, second) =>
      DialKeepsInv(cfg, s, addr, first, second);
    case Sweep(keep) =>
      SweepKeepsInv(s, keep);
    case PlainTransport(addr) =>
      PlainKeepsInv(s, addr);
  }

  lemma PlainKeepsInv(s: State, addr: Address)
    requires Inv(s)
    ensures Inv(s.(transports := s.transports[addr := Plain]))
  {
    var t := s.(transports := s.transports[addr := Plain]);
    assert forall c: nat :: Fates(t, c) == Fates(s, c);
  }

  /** Over every run of dials, sweeps and plain requests: each connection ever made meets exactly one
      fate, so it is returned at most once and a returned or closed one is in no slot; two addresses never
      share a waiting connection; and an address with a waiting connection has a cached transport. */
  lemma HandedOffOnce(cfg: Config, actions: seq<Action>)
    ensures Run(Stepper(cfg), EMPTY, actions).Some?
    ensures Inv(Run(Stepper(cfg), EMPTY, actions).value)
  {
    assert Inv(EMPTY);
    hide Step, Inv;
    RunsAlways(cfg, EMPTY, actions);
    forall t, a | Inv(t) && Stepper(cfg)(t, a).Some?
      ensures Inv(Stepper(cfg)(t, a).value)
    {
      StepKeepsInv(cfg, t, a);
    }
    RunKeeps(Stepper(cfg), Inv, EMPTY, actions);
  }

  lemma {:induction false} RunsAlways(cfg: Config, s: State, actions: seq<Action>)
    ensures Run(Stepper(cfg), s, actions).Some?
    decreases |actions|
  {
    if actions != [] {
      RunsAlways(cfg, Step(cfg, s, actions[0]), actions[1..]);
    }
  }

  /** A waiting connection waits until its own address is dialled, which returns it, or a sweep that
      spares another address closes it. No other step touches it. */
  lemma WaitingUntilTaken(cfg: Config, s: State, addr: Address, a: Action)
    requires Inv(s) && addr in s.slots
    ensures var t := Step(cfg, s, a);
            if a.DialTo? && a.addr == addr then
              Dial(cfg, s, addr, a.first, a.second).result == Conn(s.slots[addr]) && addr !in t.slots &&
                  t.next == s.next &&
              t.returned == s.returned + [s.slots[addr]]
            else if a.Sweep? && a.keep != addr then addr !in t.slots && s.slots[addr] in t.closed
            else addr in t.slots && t.slots[addr] == s.slots[addr]
  {
    hide Inv;
  }

  /** A dial of an address without a transport returns no connection: it parks one or fails. */
  lemma FirstDial(cfg: Config, s: State, addr: Address, first: Attempt, second: Attempt)
    requires Inv(s) && addr !in s.transports
    ensures var o := Dial(cfg, s, addr, first, second);
            o.result.Failure? && o.state.returned == s.returned &&
            if o.result == Failure(ProtocolNegotiated)
            then addr in o.state.transports && addr in o.state.slots && addr !in s.slots &&
                s.next <= o.state.slots[addr]
            else o.state.transports == s.transports && o.state.slots == s.slots
  {
    hide Fates;
  }

  predicate Spares(a: Action, addr: Address) {
    !(a.DialTo? && a.addr == addr) && !(a.Sweep? && a.keep != addr)
  }

  /** The hand-off over whole runs: whatever else happens to other addresses in between, the connection
      parked for an address is the one its next dial returns. */
  lemma {:induction false} ParkedUntilDialled(cfg: Config, s: State, addr: Address, actions: seq<Action>,
      first: Attempt, second: Attempt)
    requires Inv(s) && addr in s.slots && forall i :: 0 <= i < |actions| ==> Spares(actions[i], addr)
    ensures Run(Stepper(cfg), s, actions).Some?
    ensures var t := Run(Stepper(cfg), s, actions).value;
            addr in t.slots && addr in t.transports && Dial(cfg, t, addr, first, second).result == Conn(s.slots[addr])
    decreases |actions|
  {
    hide Dial, CloseIdle, Fates;
    if actions == [] {
      WaitingUntilTaken(cfg, s, addr, DialTo(addr, first, second));
    } else {
      StepKeepsInv(cfg, s, actions[0]);
      WaitingUntilTaken(cfg, s, addr, actions[0]);
      ParkedUntilDialled(cfg, Step(cfg, s, actions[0]), addr, actions[1..], first, second);
    }
  }

  /** A dial reports a negotiated protocol if and only if it has filled an empty slot. The transport it then caches
      is the one for the protocol that was negotiated, by the first attempt or by the retry. */
  lemma DialFillsIff(cfg: Config, s: State, addr: Address, first: Attempt, second: Attempt)
    requires Inv(s)
    ensures var o := Dial(cfg, s, addr, first, second);
            (o.result == Failure(ProtocolNegotiated) <==> addr !in s.slots && addr in o.state.slots) &&
            (o.result == Failure(ProtocolNegotiated) ==>
               addr !in s.transports && s.next <= o.state.slots[addr] < o.state.next &&
               o.state.transports.Keys == s.transports.Keys + {addr} &&
               (o.state.transports[addr] == Http2 <==> if first.Negotiated? then first.h2
                   else second == Negotiated(true)) &&
               (o.state.transports[addr] == Http1 <==> if first.Negotiated? then !first.h2
                   else second == Negotiated(false)))
  {
    hide Fates;
  }

  /** The whole hand-off: after a dial that reports a negotiated protocol a new connection waits, and,
      whatever happens to other addresses in between, the next dial of that address returns this very
      connection without dialling. */
  lemma HandOff(cfg: Config, s: State, addr: Address, first: Attempt, second: Attempt, between: seq<Action>,
      third: Attempt, fourth: Attempt)
    requires Inv(s) && Dial(cfg, s, addr, first, second).result == Failure(ProtocolNegotiated)
    requires forall i :: 0 <= i < |between| ==> Spares(between[i], addr)
    ensures var parked := Dial(cfg, s, addr, first, second).state;
            addr in parked.slots && s.next <= parked.slots[addr] < parked.next &&
                Run(Stepper(cfg), parked, between).Some?
    ensures var parked := Dial(cfg, s, addr, first, second).state;
            var o := Dial(cfg, Run(Stepper(cfg), parked, between).value, addr, third, fourth);
            o.result == Conn(parked.slots[addr]) && o.state.next == Run(Stepper(cfg), parked, between).value.next
  {
    hide Fates, Retry, CloseIdle;
    var parked := Dial(cfg, s, addr, first, second).state;
    DialFillsIff(cfg, s, addr, first, second);
    DialKeepsInv(cfg, s, addr, first, second);
    ParkedUntilDialled(cfg, parked, addr, between, third, fourth);
  }
}
