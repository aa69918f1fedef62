/**
 The outbound side of the UDP loop: each drained transmit is dropped, sent or counted as
 failed; failures are logged at most once per destination and window, through a map whose old
 entries are evicted after every iteration.
 */
module SendLoop {
  import opened Common

  newtype Octet = x: int | 0 <= x < 256
  newtype Segment = x: int | 0 <= x < 65536

  datatype Ip =
    | V4(a: Octet, b: Octet, c: Octet, d: Octet)
    | V6(s0: Segment, s1: Segment, s2: Segment, s3: Segment, s4: Segment, s5: Segment, s6: Segment, s7: Segment)
  datatype Addr = Addr(ip: Ip, port: nat)
  datatype Transmit = Transmit(dest: Addr, contents: seq<Octet>)

  datatype BogonKind = Loopback | LinkLocal | Multicast | Private | Cgnat | Other

  /** `is_bogon`: destinations that are never sent to. */
  function Bogon(ip: Ip): Option<BogonKind> {
    match ip
    case V4(a, b, c, d) =>
      if a == 127 then Some(Loopback)
      else if a == 169 && b == 254 then Some(LinkLocal)
      else if 224 <= a < 240 then Some(Multicast)
      else if a == 10 || (a == 172 && 16 <= b < 32) || (a == 192 && b == 168) then Some(Private)
      else if a == 100 && 64 <= b < 128 then Some(Cgnat)
      else if (a == 0 && b == 0 && c == 0 && d == 0) || (a == 255 && b == 255 && c == 255 && d == 255) then Some(Other)
      else None
    case V6(s0, s1, s2, s3, s4, s5, s6, s7) =>
      var zeros := s0 == s1 == s2 == s3 == s4 == s5 == s6 == 0;
      if zeros && s7 == 1 then Some(Loopback)
      else if 0xfe80 <= s0 < 0xfec0 then Some(LinkLocal)
      else if 0xff00 <= s0 then Some(Multicast)
      else if 0xfc00 <= s0 < 0xfe00 then Some(Private)
      else if zeros && s7 == 0 then Some(Other)
      else None
  }

  /** An IPv4 address as a number, and the test for a CIDR block of `size` addresses from `base` on. */
  function Value4(ip: Ip): int
    requires ip.V4?
  {
    ip.a as int * 0x100_0000 + ip.b as int * 0x1_0000 + ip.c as int * 0x100 + ip.d as int
  }

  ghost predicate InBlock(ip: Ip, a: Octet, b: Octet, size: int)
    requires ip.V4?
  {
    var base := a as int * 0x100_0000 + b as int * 0x1_0000;
    base <= Value4(ip) < base + size
  }

  /** The filter in terms of address blocks: 127/8, 169.254/16, 224/4, the three private blocks,
      100.64/10, and the two single addresses. */
  lemma {:induction false} BogonBlocks4(ip: Ip)
    requires ip.V4?
    ensures Bogon(ip) == Some(Loopback) <==> InBlock(ip, 127, 0, 0x100_0000)
    ensures Bogon(ip) == Some(LinkLocal) <==> InBlock(ip, 169, 254, 0x1_0000)
    ensures Bogon(ip) == Some(Multicast) <==> InBlock(ip, 224, 0, 0x1000_0000)
    ensures Bogon(ip) == Some(Private) <==>
            InBlock(ip, 10, 0, 0x100_0000) || InBlock(ip, 172, 16, 0x10_0000) || InBlock(ip, 192, 168, 0x1_0000)
    ensures Bogon(ip) == Some(Cgnat) <==> InBlock(ip, 100, 64, 0x40_0000)
    ensures Bogon(ip) == Some(Other) <==> Value4(ip) == 0 || Value4(ip) == 0xffff_ffff
  {
  }

  /** The lower seven segments of an IPv6 address as a number. */
  function Tail6(ip: Ip): (n: int)
    requires ip.V6?
    ensures 0 <= n < HIGH
    ensures n == 0 <==> ip.s1 == ip.s2 == ip.s3 == ip.s4 == ip.s5 == ip.s6 == ip.s7 == 0
    ensures n == 1 <==> ip.s1 == ip.s2 == ip.s3 == ip.s4 == ip.s5 == ip.s6 == 0 && ip.s7 == 1
  {
    ip.s1 as int * 0x1_0000_0000_0000_0000_0000_0000 + ip.s2 as int * 0x1_0000_0000_0000_0000_0000
    + ip.s3 as int * 0x1_0000_0000_0000_0000 + ip.s4 as int * 0x1_0000_0000_0000
    + ip.s5 as int * 0x1_0000_0000 + ip.s6 as int * 0x1_0000 + ip.s7 as int
  }

  /** The weight of the first segment. */
  const HIGH := 0x1_0000_0000_0000_0000_0000_0000_0000

  function Value6(ip: Ip): int
    requires ip.V6?
  {
    ip.s0 as int * HIGH + Tail6(ip)
  }

  /** The block of the addresses whose first segment is one of `count` from `base` on. */
  ghost predicate InBlock6(ip: Ip, base: int, count: int)
    requires ip.V6?
  {
    base * HIGH <= Value6(ip) < (base + count) * HIGH
  }

  /** The same for IPv6: ::1, fe80::/10, ff00::/8, fc00::/7 and the unspecified address. */
  lemma {:induction false} BogonBlocks6(ip: Ip)
    requires ip.V6?
    ensures Bogon(ip) == Some(Loopback) <==> Value6(ip) == 1
    ensures Bogon(ip) == Some(LinkLocal) <==> InBlock6(ip, 0xfe80, 0x40)
    ensures Bogon(ip) == Some(Multicast) <==> InBlock6(ip, 0xff00, 0x100)
    ensures Bogon(ip) == Some(Private) <==> InBlock6(ip, 0xfc00, 0x200)
    ensures Bogon(ip) == Some(Other) <==> Value6(ip) == 0
    ensures Bogon(ip) != Some(Cgnat)
  {
    hide Tail6;
  }

  /** `SEND_FAIL_DEDUP_WINDOW`, in milliseconds. */
  const WINDOW: nat := 10000

  type Dedup = map<Addr, nat>

  // ---- the log decision -------------------------------------------------------------------

  /** A failure is logged unless one to the same destination was logged within the window. */
  predicate ShouldLog(m: Dedup, now: nat, dest: Addr) {
    dest !in m || SatSub(now, m[dest]) >= WINDOW
  }

  function AfterFailure(m: Dedup, now: nat, dest: Addr): Dedup {
    if ShouldLog(m, now, dest) then m[dest := now] else m
  }

  function AfterFailures(m: Dedup, now: nat, dests: seq<Addr>): Dedup {
    if dests == [] then m else AfterFailure(AfterFailures(m, now, dests[..|dests| - 1]), now, dests[|dests| - 1])
  }

  /** The decision for each failure of one flush. */
  function Decisions(m: Dedup, now: nat, dests: seq<Addr>): (r: seq<bool>)
    ensures |r| == |dests|
  {
    if dests == [] then []
    else
      var init := dests[..|dests| - 1];
      Decisions(m, now, init) + [ShouldLog(AfterFailures(m, now, init), now, dests[|dests| - 1])]
  }

  /** The eviction at the end of an iteration. */
  function Evict(m: Dedup, now: nat): Dedup {
    map d | d in m && SatSub(now, m[d]) < 6 * WINDOW :: m[d]
  }

  // ---- one flush --------------------------------------------------------------------------

  datatype SendError = DestRequired | NetworkUnreachable | HostUnreachable | NoPermission | Unclassified

  /** `classify_send_error`: the label of an operating-system error code. */
  function Classify(code: Option<int>): SendError {
    match code
    case Some(89) => DestRequired
    case Some(101) => NetworkUnreachable
    case Some(113) => HostUnreachable
    case Some(13) => NoPermission
    case _ => Unclassified
  }

  /** What sending one transmit came to. */
  datatype Outcome = Sent | Failed(code: Option<int>)

  function Routable(ts: seq<Transmit>): seq<Transmit> {
    if ts == [] then []
    else Routable(ts[..|ts| - 1]) + (if Bogon(ts[|ts| - 1].dest.ip).None? then [ts[|ts| - 1]] else [])
  }

  /** The destinations of the routable transmits whose send failed. */
  function Failures(ts: seq<Transmit>, send: nat -> Outcome): seq<Addr> {
    if ts == [] then []
    else
      var n := |ts| - 1;
      Failures(ts[..n], send) + (if Bogon(ts[n].dest.ip).None? && send(n).Failed? then [ts[n].dest] else [])
  }

  /** One line of the log: the destination and the clock reading it was written at. */
  datatype Warning = Warning(dest: Addr, at: nat)

  function LogOf(now: nat, dests: seq<Addr>, decisions: seq<bool>): seq<Warning>
    requires |dests| == |decisions|
  {
    if dests == [] then []
    else
      var n := |dests| - 1;
      LogOf(now, dests[..n], decisions[..n]) + (if decisions[n] then [Warning(dests[n], now)] else [])
  }

  /** The metric label of each dropped transmit. */
  function DropKinds(ts: seq<Transmit>): seq<BogonKind> {
    if ts == [] then []
    else
      var kind := Bogon(ts[|ts| - 1].dest.ip);
      DropKinds(ts[..|ts| - 1]) + (if kind.Some? then [kind.value] else [])
  }

  /** The metric label of each failed one. */
  function FailureKinds(ts: seq<Transmit>, send: nat -> Outcome): seq<SendError> {
    if ts == [] then []
    else
      var n := |ts| - 1;
      FailureKinds(ts[..n], send)
      + (if Bogon(ts[n].dest.ip).None? && send(n).Failed? then [Classify(send(n).code)] else [])
  }

  class Loop {
    var dedup: Dedup
    var pending: seq<Transmit>
    // the increments of the two labelled counters: a label counts as often as it occurs
    var bogons: seq<BogonKind>
    var failed: seq<SendError>
    var attempted: seq<Transmit>
    var warned: seq<Warning>

    constructor ()
      ensures dedup == map[] && pending == [] && attempted == [] && warned == []
      ensures bogons == [] && failed == []
    {
      dedup, pending, attempted, warned := map[], [], [], [];
      bogons, failed := [], [];
    }

    /** `flush_transmits`: `queue` is what the registry drains, `send(i)` the outcome of sending
        its `i`-th transmit. Every transmit is exactly one of dropped, sent or failed; the socket
        sees the routable ones in order; the reused buffer ends empty. */
    method Flush(queue: seq<Transmit>, send: nat -> Outcome, now: nat)
      modifies this
      ensures pending == []
      ensures attempted == old(attempted) + Routable(queue)
      ensures failed == old(failed) + FailureKinds(queue, send)
      ensures bogons == old(bogons) + DropKinds(queue)
      ensures dedup == AfterFailures(old(dedup), now, Failures(queue, send))
      ensures var dests := Failures(queue, send);
              warned == old(warned) + LogOf(now, dests, Decisions(old(dedup), now, dests))
    {
      hide Bogon, ShouldLog, AfterFailures, Decisions, LogOf, Routable, Failures, DropKinds, FailureKinds, Classify;
      pending := queue;
      var n := 0;
      FlushStart(queue, send, now, dedup);
      while pending != []
        invariant n <= |queue| && pending == queue[n..]
        invariant attempted == old(attempted) + Routable(queue[..n])
        invariant failed == old(failed) + FailureKinds(queue[..n], send)
        invariant bogons == old(bogons) + DropKinds(queue[..n])
        invariant dedup == AfterFailures(old(dedup), now, Failures(queue[..n], send))
        invariant var dests := Failures(queue[..n], send);
                  warned == old(warned) + LogOf(now, dests, Decisions(old(dedup), now, dests))
        decreases |pending|
      {
        var t := pending[0];
        pending := pending[1..];
        ghost var before := Failures(queue[..n], send);
        FlushStep(queue, send, n);
        var kind := Bogon(t.dest.ip);
        if kind.Some? {
          bogons := bogons + [kind.value];
        } else {
          attempted := attempted + [t];
          if send(n).Failed? {
            var error := Classify(send(n).code);
            failed := failed + [error];
            FailureStep(old(dedup), now, before, t.dest);
            if ShouldLog(dedup, now, t.dest) {
              dedup := dedup[t.dest := now];
              warned := warned + [Warning(t.dest, now)];
            }
          }
        }
        n := n + 1;
      }
      assert queue[..n] == queue;
    }

    /** One iteration of `serve`: flush, then evict. */
    method Iterate(queue: seq<Transmit>, send: nat -> Outcome, now: nat)
      modifies this
      ensures dedup == Evict(AfterFailures(old(dedup), now, Failures(queue, send)), now)
      ensures forall d :: d in dedup ==> SatSub(now, dedup[d]) < 6 * WINDOW
      ensures var dests := Failures(queue, send);
              warned == old(warned) + LogOf(now, dests, Decisions(old(dedup), now, dests))
    {
      Flush(queue, send, now);
      dedup := Evict(dedup, now);
    }

    /** The loop of `serve` over its inputs, from a fresh map: the map and the warnings are
        those of the run of rounds. */
    method Serve(inputs: seq<Input>)
      requires dedup == map[] && warned == []
      modifies this
      ensures dedup == MapAfter(RoundsOf(inputs), true)
      ensures warned == Logged(RoundsOf(inputs), true)
    {
      hide Evict, AfterFailures, Failures, LogOf, Decisions;
      var n := 0;
      while n < |inputs|
        invariant 0 <= n <= |inputs|
        invariant dedup == MapAfter(RoundsOf(inputs[..n]), true)
        invariant warned == Logged(RoundsOf(inputs[..n]), true)
      {
        assert inputs[..n + 1][..n] == inputs[..n];
        var i := inputs[n];
        ghost var rounds := RoundsOf(inputs[..n + 1]);
        assert rounds[..n] == RoundsOf(inputs[..n]);
        Iterate(i.queue, i.send, i.now);
        n := n + 1;
      }
      assert inputs[..n] == inputs;
    }
  }

  /** What one iteration works on. */
  datatype Input = Input(queue: seq<Transmit>, send: nat -> Outcome, now: nat)

  function RoundsOf(inputs: seq<Input>): (r: seq<Round>)
    ensures |r| == |inputs|
  {
    if inputs == [] then []
    else
      var n := |inputs| - 1;
      RoundsOf(inputs[..n]) + [Round(inputs[n].now, Failures(inputs[n].queue, inputs[n].send))]
  }

  /** Every warning of a run, in order. */
  function Logged(rounds: seq<Round>, evict: bool): seq<Warning> {
    if rounds == [] then []
    else
      var n := |rounds| - 1;
      Logged(rounds[..n], evict)
      + LogOf(rounds[n].now, rounds[n].dests, Decisions(MapAfter(rounds[..n], evict), rounds[n].now, rounds[n].dests))
  }

  lemma {:induction false} FlushStep(queue: seq<Transmit>, send: nat -> Outcome, n: nat)
    requires n < |queue|
    ensures var r := Bogon(queue[n].dest.ip).None?;
            && Routable(queue[..n + 1]) == (if r then Routable(queue[..n]) + [queue[n]] else Routable(queue[..n]))
            && Failures(queue[..n + 1], send) ==
               (if r && send(n).Failed? then Failures(queue[..n], send) + [queue[n].dest]
                else Failures(queue[..n], send))
            && DropKinds(queue[..n + 1]) ==
               (if r then DropKinds(queue[..n]) else DropKinds(queue[..n]) + [Bogon(queue[n].dest.ip).value])
            && FailureKinds(queue[..n + 1], send) ==
               (if r && send(n).Failed? then FailureKinds(queue[..n], send) + [Classify(send(n).code)]
                else FailureKinds(queue[..n], send))
  {
    hide Bogon;
    assert queue[..n + 1][..n] == queue[..n];
  }

  lemma {:induction false} FlushStart(queue: seq<Transmit>, send: nat -> Outcome, now: nat, m: Dedup)
    ensures Routable(queue[..0]) == [] && Failures(queue[..0], send) == []
    ensures DropKinds(queue[..0]) == [] && FailureKinds(queue[..0], send) == []
    ensures AfterFailures(m, now, []) == m && LogOf(now, [], Decisions(m, now, [])) == []
  {
  }

  lemma {:induction false} FailureStep(m: Dedup, now: nat, dests: seq<Addr>, d: Addr)
    ensures AfterFailures(m, now, dests + [d]) == AfterFailure(AfterFailures(m, now, dests), now, d)
    ensures LogOf(now, dests + [d], Decisions(m, now, dests + [d])) ==
            if ShouldLog(AfterFailures(m, now, dests), now, d)
            then LogOf(now, dests, Decisions(m, now, dests)) + [Warning(d, now)]
            else LogOf(now, dests, Decisions(m, now, dests))
  {
    hide ShouldLog;
    assert (dests + [d])[..|dests|] == dests;
    var ds := Decisions(m, now, dests + [d]);
    assert ds[..|dests|] == Decisions(m, now, dests);
  }

  /** Conservation: dropped, sent and failed add up to what was drained. */
  lemma {:induction false} FlushConserves(queue: seq<Transmit>, send: nat -> Outcome)
    ensures |Routable(queue)| + |DropKinds(queue)| == |queue|
    ensures |FailureKinds(queue, send)| == |Failures(queue, send)| <= |Routable(queue)|
    ensures forall t :: t in Routable(queue) <==> t in queue && Bogon(t.dest.ip).None?
    ensures multiset(Routable(queue)) <= multiset(queue)
  {
    hide Bogon;
    if queue != [] {
      var n := |queue| - 1;
      FlushConserves(queue[..n], send);
      assert queue == queue[..n] + [queue[n]];
      assert multiset(queue) == multiset(queue[..n]) + multiset{queue[n]};
    }
  }

  /** The positions below `n` that `pick` selects. */
  function Positions(n: nat, pick: nat -> bool): (r: seq<nat>)
    ensures forall i :: 0 <= i < |r| ==> r[i] < n
  {
    if n == 0 then [] else Positions(n - 1, pick) + (if pick(n - 1) then [n - 1] else [])
  }

  /** They are complete, and in order. */
  lemma {:induction false} PositionsAre(n: nat, pick: nat -> bool)
    ensures forall k: nat :: k in Positions(n, pick) <==> k < n && pick(k)
    ensures forall i, k :: 0 <= i < k < |Positions(n, pick)| ==> Positions(n, pick)[i] < Positions(n, pick)[k]
  {
    if n > 0 {
      PositionsAre(n - 1, pick);
    }
  }

  function RoutableAt(queue: seq<Transmit>): nat -> bool {
    (n: nat) => n < |queue| && Bogon(queue[n].dest.ip).None?
  }

  function RefusedAt(queue: seq<Transmit>, send: nat -> Outcome): nat -> bool {
    (n: nat) => n < |queue| && Bogon(queue[n].dest.ip).None? && send(n).Failed?
  }

  function DroppedAt(queue: seq<Transmit>): nat -> bool {
    (n: nat) => n < |queue| && Bogon(queue[n].dest.ip).Some?
  }

  /** The labels of the drops are those of the transmits at the bogon positions. */
  lemma {:induction false} DroppedOrder(queue: seq<Transmit>, n: nat)
    requires n <= |queue|
    ensures var dropped := Positions(n, DroppedAt(queue));
            && |DropKinds(queue[..n])| == |dropped|
            && forall i :: 0 <= i < |dropped| ==> Some(DropKinds(queue[..n])[i]) == Bogon(queue[dropped[i]].dest.ip)
  {
    hide Bogon;
    if n > 0 {
      DroppedOrder(queue, n - 1);
      assert queue[..n][..n - 1] == queue[..n - 1];
    }
  }

  /** The attempted transmits are those at the routable positions, in queue order. */
  lemma {:induction false} SentOrder(queue: seq<Transmit>, n: nat)
    requires n <= |queue|
    ensures var sent := Positions(n, RoutableAt(queue));
            Routable(queue[..n]) == seq(|sent|, i requires 0 <= i < |sent| => queue[sent[i]])
  {
    hide Bogon;
    if n > 0 {
      SentOrder(queue, n - 1);
      assert queue[..n][..n - 1] == queue[..n - 1];
    }
  }

  /** The failures are those at the refused positions, in queue order. */
  lemma {:induction false} RefusedOrder(queue: seq<Transmit>, send: nat -> Outcome, n: nat)
    requires n <= |queue|
    ensures var refused := Positions(n, RefusedAt(queue, send));
            Failures(queue[..n], send) == seq(|refused|, i requires 0 <= i < |refused| => queue[refused[i]].dest)
  {
    hide Bogon;
    if n > 0 {
      RefusedOrder(queue, send, n - 1);
      assert queue[..n][..n - 1] == queue[..n - 1];
    }
  }

  /** The error codes that a label stands for. */
  predicate StandsFor(kind: SendError, code: Option<int>) {
    match kind
    case DestRequired => code == Some(89)
    case NetworkUnreachable => code == Some(101)
    case HostUnreachable => code == Some(113)
    case NoPermission => code == Some(13)
    case Unclassified => code !in {Some(13), Some(89), Some(101), Some(113)}
  }

  /** Their labels stand for the errors at these positions. */
  lemma {:induction false} RefusedKinds(queue: seq<Transmit>, send: nat -> Outcome, n: nat)
    requires n <= |queue|
    ensures var refused := Positions(n, RefusedAt(queue, send));
            && |FailureKinds(queue[..n], send)| == |refused|
            && forall i :: 0 <= i < |refused| ==>
                 send(refused[i]).Failed? && StandsFor(FailureKinds(queue[..n], send)[i], send(refused[i]).code)
  {
    hide Bogon;
    if n > 0 {
      RefusedKinds(queue, send, n - 1);
      assert queue[..n][..n - 1] == queue[..n - 1];
    }
  }

  // ---- whole runs: eviction is invisible -----------------------------------------------------

  /** One iteration: its clock reading and the failures it saw. */
  datatype Round = Round(now: nat, dests: seq<Addr>)

  predicate Forward(rounds: seq<Round>) {
    forall i, k :: 0 <= i < k < |rounds| ==> rounds[i].now <= rounds[k].now
  }

  /** The map after the rounds, evicting after each of them or never. */
  function MapAfter(rounds: seq<Round>, evict: bool): Dedup {
    if rounds == [] then map[]
    else
      var n := |rounds| - 1;
      var m := AfterFailures(MapAfter(rounds[..n], evict), rounds[n].now, rounds[n].dests);
      if evict then Evict(m, rounds[n].now) else m
  }

  /** The log decisions of every round. */
  function Log(rounds: seq<Round>, evict: bool): seq<seq<bool>> {
    if rounds == [] then []
    else
      var n := |rounds| - 1;
      Log(rounds[..n], evict) + [Decisions(MapAfter(rounds[..n], evict), rounds[n].now, rounds[n].dests)]
  }

  /** The evicting map is the growing one without some entries that are too old to matter. */
  ghost predicate Trimmed(m: Dedup, f: Dedup, now: nat) {
    && (forall d :: d in m ==> d in f && m[d] == f[d])
    && (forall d :: d in f ==> f[d] <= now)
    && (forall d :: d in f && d !in m ==> now - f[d] >= 6 * WINDOW)
  }

  lemma TrimmedDecides(m: Dedup, f: Dedup, now: nat, d: Addr)
    requires Trimmed(m, f, now)
    ensures ShouldLog(m, now, d) == ShouldLog(f, now, d)
    ensures Trimmed(AfterFailure(m, now, d), AfterFailure(f, now, d), now)
  {
  }

  lemma {:induction false} TrimmedFlush(m: Dedup, f: Dedup, now: nat, dests: seq<Addr>)
    requires Trimmed(m, f, now)
    ensures Trimmed(AfterFailures(m, now, dests), AfterFailures(f, now, dests), now)
    ensures Decisions(m, now, dests) == Decisions(f, now, dests)
  {
    hide Trimmed, ShouldLog, AfterFailure;
    if dests != [] {
      var init := dests[..|dests| - 1];
      TrimmedFlush(m, f, now, init);
      TrimmedDecides(AfterFailures(m, now, init), AfterFailures(f, now, init), now, dests[|dests| - 1]);
    }
  }

  lemma TrimmedLater(m: Dedup, f: Dedup, now: nat, later: nat)
    requires Trimmed(m, f, now) && now <= later
    ensures Trimmed(m, f, later)
    ensures Trimmed(Evict(m, later), f, later)
  {
  }

  lemma {:induction false} EvictionTrims(rounds: seq<Round>, later: nat)
    requires Forward(rounds) && (rounds != [] ==> rounds[|rounds| - 1].now <= later)
    ensures Trimmed(MapAfter(rounds, true), MapAfter(rounds, false), later)
  {
    hide Evict, AfterFailures, Trimmed;
    if rounds == [] {
      NothingTrimmed(later);
    } else {
      var n := |rounds| - 1;
      var now := rounds[n].now;
      EvictionTrims(rounds[..n], now);
      TrimmedFlush(MapAfter(rounds[..n], true), MapAfter(rounds[..n], false), now, rounds[n].dests);
      var m := AfterFailures(MapAfter(rounds[..n], true), now, rounds[n].dests);
      TrimmedLater(m, MapAfter(rounds, false), now, now);
      TrimmedLater(Evict(m, now), MapAfter(rounds, false), now, later);
    }
  }

  lemma NothingTrimmed(later: nat)
    ensures Trimmed(map[], map[], later)
  {
  }

  /** Eviction never changes a log decision: for every run with a forward clock, the evicting
      map and the ever-growing one decide alike. */
  lemma {:induction false} EvictionInvisible(rounds: seq<Round>)
    requires Forward(rounds)
    ensures Log(rounds, true) == Log(rounds, false)
  {
    hide MapAfter, Decisions;
    if rounds != [] {
      var n := |rounds| - 1;
      EvictionInvisible(rounds[..n]);
      EvictionTrims(rounds[..n], rounds[n].now);
      TrimmedFlush(MapAfter(rounds[..n], true), MapAfter(rounds[..n], false), rounds[n].now, rounds[n].dests);
    }
  }

  // ---- whole runs: spacing of the warnings ----------------------------------------------------

  /** The warnings for `d`, as clock readings, of one flush. */
  function Warnings(m: Dedup, now: nat, dests: seq<Addr>, d: Addr): seq<nat> {
    if dests == [] then []
    else
      var n := |dests| - 1;
      Warnings(m, now, dests[..n], d)
      + (if dests[n] == d && ShouldLog(AfterFailures(m, now, dests[..n]), now, d) then [now] else [])
  }

  /** The warnings for `d` of a whole run. */
  function AllWarnings(rounds: seq<Round>, evict: bool, d: Addr): seq<nat> {
    if rounds == [] then []
    else
      var n := |rounds| - 1;
      AllWarnings(rounds[..n], evict, d) + Warnings(MapAfter(rounds[..n], evict), rounds[n].now, rounds[n].dests, d)
  }

  ghost predicate Spaced(ws: seq<nat>) {
    forall i, k :: 0 <= i < k < |ws| ==> ws[k] - ws[i] >= WINDOW
  }

  /** The growing map remembers the last warning. */
  ghost predicate Remembers(m: Dedup, ws: seq<nat>, d: Addr) {
    && (ws == [] <==> d !in m)
    && (ws != [] ==> m[d] == ws[|ws| - 1])
    && Spaced(ws)
  }

  lemma {:induction false} SpacedFlush(m: Dedup, ws: seq<nat>, now: nat, dests: seq<Addr>, d: Addr)
    requires Remembers(m, ws, d) && (ws != [] ==> ws[|ws| - 1] <= now)
    ensures var vs := ws + Warnings(m, now, dests, d);
            Remembers(AfterFailures(m, now, dests), vs, d) && (vs != [] ==> vs[|vs| - 1] <= now)
  {
    hide Remembers, AfterFailure, ShouldLog;
    if dests == [] {
      assert ws + Warnings(m, now, dests, d) == ws;
    } else {
      var n := |dests| - 1;
      SpacedFlush(m, ws, now, dests[..n], d);
      var vs := ws + Warnings(m, now, dests[..n], d);
      var f := AfterFailures(m, now, dests[..n]);
      RemembersStep(f, vs, now, dests[n], d);
      var tail := if dests[n] == d && ShouldLog(f, now, d) then [now] else [];
      assert ws + Warnings(m, now, dests, d) == vs + tail;
    }
  }

  lemma {:induction false} SpacedSnoc(ws: seq<nat>, now: nat)
    requires Spaced(ws) && (ws != [] ==> now - ws[|ws| - 1] >= WINDOW)
    ensures Spaced(ws + [now])
  {
    if ws != [] {
      assert forall i :: 0 <= i < |ws| ==> ws[i] <= ws[|ws| - 1];
    }
  }

  lemma {:induction false} RemembersStep(m: Dedup, ws: seq<nat>, now: nat, failing: Addr, d: Addr)
    requires Remembers(m, ws, d) && (ws != [] ==> ws[|ws| - 1] <= now)
    ensures var vs := ws + (if failing == d && ShouldLog(m, now, d) then [now] else []);
            Remembers(AfterFailure(m, now, failing), vs, d) && (vs != [] ==> vs[|vs| - 1] <= now)
  {
    if failing == d && ShouldLog(m, now, d) {
      SpacedSnoc(ws, now);
    } else {
      assert ws + [] == ws;
    }
  }

  lemma {:induction false} SpacedRun(rounds: seq<Round>, d: Addr)
    requires Forward(rounds)
    ensures var ws := AllWarnings(rounds, false, d);
            && Remembers(MapAfter(rounds, false), ws, d)
            && (ws != [] ==> rounds != [] && ws[|ws| - 1] <= rounds[|rounds| - 1].now)
  {
    hide AfterFailures, Warnings, Remembers;
    if rounds == [] {
      NothingRemembered(d);
    } else {
      var n := |rounds| - 1;
      SpacedRun(rounds[..n], d);
      SpacedFlush(MapAfter(rounds[..n], false), AllWarnings(rounds[..n], false, d), rounds[n].now, rounds[n].dests, d);
    }
  }

  lemma NothingRemembered(d: Addr)
    ensures Remembers(map[], [], d)
  {
  }

  lemma {:induction false} SameWarnings(m: Dedup, f: Dedup, now: nat, dests: seq<Addr>, d: Addr)
    requires Trimmed(m, f, now)
    ensures Warnings(m, now, dests, d) == Warnings(f, now, dests, d)
  {
    hide Trimmed, ShouldLog;
    if dests != [] {
      var init := dests[..|dests| - 1];
      SameWarnings(m, f, now, init, d);
      TrimmedFlush(m, f, now, init);
      TrimmedDecides(AfterFailures(m, now, init), AfterFailures(f, now, init), now, d);
    }
  }

  lemma {:induction false} SameAllWarnings(rounds: seq<Round>, d: Addr)
    requires Forward(rounds)
    ensures AllWarnings(rounds, true, d) == AllWarnings(rounds, false, d)
  {
    hide MapAfter, Warnings;
    if rounds != [] {
      var n := |rounds| - 1;
      SameAllWarnings(rounds[..n], d);
      EvictionTrims(rounds[..n], rounds[n].now);
      SameWarnings(MapAfter(rounds[..n], true), MapAfter(rounds[..n], false), rounds[n].now, rounds[n].dests, d);
    }
  }

  /** The clock readings at which the log names `d`. */
  function TimesOf(log: seq<Warning>, d: Addr): seq<nat> {
    if log == [] then []
    else
      var n := |log| - 1;
      TimesOf(log[..n], d) + (if log[n].dest == d then [log[n].at] else [])
  }

  lemma {:induction false} TimesAppend(a: seq<Warning>, b: seq<Warning>, d: Addr)
    ensures TimesOf(a + b, d) == TimesOf(a, d) + TimesOf(b, d)
  {
    if b == [] {
      assert a + b == a;
    } else {
      var n := |b| - 1;
      assert (a + b)[..|a + b| - 1] == a + b[..n];
      TimesAppend(a, b[..n], d);
    }
  }

  lemma {:induction false} WarningsOfFlush(m: Dedup, now: nat, dests: seq<Addr>, d: Addr)
    ensures TimesOf(LogOf(now, dests, Decisions(m, now, dests)), d) == Warnings(m, now, dests, d)
  {
    hide ShouldLog;
    if dests != [] {
      var n := |dests| - 1;
      WarningsOfFlush(m, now, dests[..n], d);
      assert Decisions(m, now, dests)[..n] == Decisions(m, now, dests[..n]);
      var log := LogOf(now, dests, Decisions(m, now, dests));
      var before := LogOf(now, dests[..n], Decisions(m, now, dests[..n]));
      if log != before {
        assert log[..|log| - 1] == before;
      }
    }
  }

  /** The warnings that are counted are those the loop prints, clock readings included. */
  lemma {:induction false} WarningsAreLogged(rounds: seq<Round>, evict: bool, d: Addr)
    ensures TimesOf(Logged(rounds, evict), d) == AllWarnings(rounds, evict, d)
  {
    hide MapAfter, Warnings, LogOf, Decisions;
    if rounds != [] {
      var n, m := |rounds| - 1, MapAfter(rounds[..|rounds| - 1], evict);
      WarningsAreLogged(rounds[..n], evict, d);
      WarningsOfFlush(m, rounds[n].now, rounds[n].dests, d);
      TimesAppend(Logged(rounds[..n], evict),
                  LogOf(rounds[n].now, rounds[n].dests, Decisions(m, rounds[n].now, rounds[n].dests)), d);
    }
  }

  // ---- whole runs: no failure goes unseen ---------------------------------------------------------

  /** Every entry of the map is the latest line of the log for its destination, and a line without
      an entry is at least a minute old. */
  ghost predicate Backed(m: Dedup, log: seq<Warning>, now: nat) {
    && (forall d :: d in m ==> Warning(d, m[d]) in log)
    && (forall w :: w in log ==> w.at <= now)
    && (forall w :: w in log ==> if w.dest in m then w.at <= m[w.dest] else now - w.at >= 60000)
  }

  /** The log has a line for `d` from less than `age` milliseconds before `now`. */
  ghost predicate Covered(log: seq<Warning>, d: Addr, now: nat, age: nat) {
    exists w :: w in log && w.dest == d && w.at <= now && now - w.at < age
  }

  lemma {:induction false} BackedFlush(m: Dedup, log: seq<Warning>, now: nat, dests: seq<Addr>)
    requires Backed(m, log, now)
    ensures var all := log + LogOf(now, dests, Decisions(m, now, dests));
            && Backed(AfterFailures(m, now, dests), all, now)
            && (forall d :: d in dests ==> Covered(all, d, now, 10000))
  {
    hide Backed, Covered;
    if dests == [] {
      assert log + LogOf(now, dests, Decisions(m, now, dests)) == log;
    } else {
      var n := |dests| - 1;
      var init, d := dests[..n], dests[n];
      BackedFlush(m, log, now, init);
      assert dests == init + [d];
      FailureStep(m, now, init, d);
      var before := log + LogOf(now, init, Decisions(m, now, init));
      var all := log + LogOf(now, dests, Decisions(m, now, dests));
      var f := AfterFailures(m, now, init);
      assert all == if ShouldLog(f, now, d) then before + [Warning(d, now)] else before;
      BackedFailure(f, before, now, d);
      forall x | x in init
        ensures Covered(all, x, now, 10000)
      {
        CoveredLonger(before, Warning(d, now), x, now, 10000);
      }
    }
  }

  lemma {:induction false} BackedFailure(m: Dedup, log: seq<Warning>, now: nat, d: Addr)
    requires Backed(m, log, now)
    ensures var all := if ShouldLog(m, now, d) then log + [Warning(d, now)] else log;
            Backed(AfterFailure(m, now, d), all, now) && Covered(all, d, now, 10000)
  {
    var w := if ShouldLog(m, now, d) then Warning(d, now) else Warning(d, m[d]);
    var all := if ShouldLog(m, now, d) then log + [Warning(d, now)] else log;
    assert w in all && w.dest == d;
  }

  lemma BackedLater(m: Dedup, log: seq<Warning>, before: nat, now: nat)
    requires Backed(m, log, before) && before <= now
    ensures Backed(m, log, now)
  {
  }

  lemma BackedEvict(m: Dedup, log: seq<Warning>, now: nat)
    requires Backed(m, log, now)
    ensures Backed(Evict(m, now), log, now)
    ensures forall d :: d in Evict(m, now) ==> Covered(log, d, now, 60000)
  {
    forall d | d in Evict(m, now)
      ensures Covered(log, d, now, 60000)
    {
      assert Warning(d, m[d]) in log;
    }
  }

  lemma CoveredLonger(log: seq<Warning>, w: Warning, d: Addr, now: nat, age: nat)
    requires Covered(log, d, now, age)
    ensures Covered(log + [w], d, now, age)
  {
    var x :| x in log && x.dest == d && x.at <= now && now - x.at < age;
    assert x in log + [w];
  }

  lemma {:induction false} BackedRun(rounds: seq<Round>)
    requires Forward(rounds) && rounds != []
    ensures var last, m := rounds[|rounds| - 1], MapAfter(rounds, true);
            && Backed(m, Logged(rounds, true), last.now)
            && (forall d :: d in m ==> Covered(Logged(rounds, true), d, last.now, 60000))
            && (forall d :: d in last.dests ==> Covered(Logged(rounds, true), d, last.now, 10000))
  {
    hide AfterFailures, LogOf, Decisions, Covered, Evict;
    var n := |rounds| - 1;
    var m, log, last := MapAfter(rounds[..n], true), Logged(rounds[..n], true), rounds[n];
    if n > 0 {
      BackedRun(rounds[..n]);
      BackedLater(m, log, rounds[n - 1].now, last.now);
    }
    BackedFlush(m, log, last.now, last.dests);
    BackedEvict(AfterFailures(m, last.now, last.dests), Logged(rounds, true), last.now);
  }

  /** After every round the map holds exactly the destinations with a line of the last minute, each
      with the time of its latest line. */
  lemma {:induction false} MapIsRecentLog(rounds: seq<Round>, d: Addr)
    requires Forward(rounds) && rounds != []
    ensures var m, log, now := MapAfter(rounds, true), Logged(rounds, true), rounds[|rounds| - 1].now;
            && (d in m <==> Covered(log, d, now, 60000))
            && (d in m ==> Warning(d, m[d]) in log && forall w :: w in log && w.dest == d ==> w.at <= m[d])
  {
    hide MapAfter, Logged;
    BackedRun(rounds);
  }

  lemma {:induction false} LogGrows(rounds: seq<Round>, n: nat)
    requires n <= |rounds|
    ensures Logged(rounds[..n], true) <= Logged(rounds, true)
  {
    hide LogOf, MapAfter, Decisions;
    if n == |rounds| {
      assert rounds[..n] == rounds;
    } else {
      var last := |rounds| - 1;
      assert rounds[..last][..n] == rounds[..n];
      LogGrows(rounds[..last], n);
    }
  }

  /** No failure goes unseen: when the round `n` fails to reach `d`, the log then has a line for `d`
      from less than ten seconds before. */
  lemma {:induction false} FailuresAreLogged(rounds: seq<Round>, n: nat, d: Addr)
    requires Forward(rounds) && n < |rounds| && d in rounds[n].dests
    ensures Covered(Logged(rounds[..n + 1], true), d, rounds[n].now, 10000)
    ensures Logged(rounds[..n + 1], true) <= Logged(rounds, true)
  {
    hide Covered, Logged, Backed, MapAfter;
    BackedRun(rounds[..n + 1]);
    LogGrows(rounds, n + 1);
  }

  lemma {:induction false} TimesHas(log: seq<Warning>, i: nat)
    requires i < |log|
    ensures log[i].at in TimesOf(log, log[i].dest)
  {
    var n := |log| - 1;
    if i < n {
      TimesHas(log[..n], i);
    }
  }

  lemma {:induction false} SpacedLog(log: seq<Warning>, i: nat, k: nat)
    requires i < k < |log| && log[i].dest == log[k].dest && Spaced(TimesOf(log, log[k].dest))
    ensures log[k].at - log[i].at >= WINDOW
  {
    var n, d := |log| - 1, log[k].dest;
    var init := log[..n];
    if k < n {
      assert forall x :: 0 <= x < |TimesOf(init, d)| ==> TimesOf(log, d)[x] == TimesOf(init, d)[x];
      SpacedLog(init, i, k);
    } else {
      TimesHas(init, i);
      var x :| 0 <= x < |TimesOf(init, d)| && TimesOf(init, d)[x] == log[i].at;
      assert TimesOf(log, d)[x] == log[i].at && TimesOf(log, d)[|TimesOf(init, d)|] == log[k].at;
    }
  }

  /** Any two lines of the log for one destination are at least one window apart, with eviction. */
  lemma {:induction false} WarningsSpaced(rounds: seq<Round>, i: nat, k: nat)
    requires Forward(rounds) && i < k < |Logged(rounds, true)|
    ensures var log := Logged(rounds, true);
            log[i].dest == log[k].dest ==> log[k].at - log[i].at >= 10000
  {
    hide Logged, TimesOf, AllWarnings, MapAfter, Spaced;
    var log := Logged(rounds, true);
    var d := log[k].dest;
    SpacedRun(rounds, d);
    SameAllWarnings(rounds, d);
    WarningsAreLogged(rounds, true, d);
    if log[i].dest == d {
      SpacedLog(log, i, k);
    }
  }
}
