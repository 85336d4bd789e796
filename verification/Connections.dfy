/**
 * Connection accounting of the Stratum listener (stratum_listener.rs): a global semaphore and a table of live
 * connections per source address. Accepting takes a permit, then counts the address or turns the client away; an
 * ending task drops its address guard, then its permit. These are separate steps and interleave freely.
 */
module Connections {
  import opened Util

  const TWO_32: nat := 0x1_0000_0000

  /** The largest number of permits a semaphore can hold. */
  const MAX_PERMITS: nat := 0x1FFF_FFFF_FFFF_FFFF

  /** The two configured caps; zero disables one. */
  datatype Config = Config(maxConnections: nat, maxPerIp: nat)

  function GlobalCap(cfg: Config): nat {
    if cfg.maxConnections == 0 then MAX_PERMITS else cfg.maxConnections
  }

  /** The per-address cap as the code compares it, truncated to 32 bits. */
  function IpCap(cfg: Config): nat {
    cfg.maxPerIp % TWO_32
  }

  /** Where a connection is between accept and the end of its task. */
  datatype Phase<Ip> = Permitted(ip: Ip) | Live(ip: Ip) | Leaving | Gone

  datatype State<Ip> = State(permits: nat, counts: map<Ip, nat>, stopped: bool, conns: seq<Phase<Ip>>)

  datatype Event<Ip> = Accept(ip: Ip) | Count(i: nat) | DropGuard(i: nat) | DropPermit(i: nat)

  function Start<Ip>(cfg: Config): State<Ip> {
    State(GlobalCap(cfg), map[], false, [])
  }

  function CountOf<Ip(==)>(counts: map<Ip, nat>, ip: Ip): nat {
    if ip in counts then counts[ip] else 0
  }

  predicate Enabled<Ip>(s: State<Ip>, e: Event<Ip>) {
    match e
    case Accept(_) => !s.stopped
    case Count(i) => i < |s.conns| && s.conns[i].Permitted?
    case DropGuard(i) => i < |s.conns| && s.conns[i].Live?
    case DropPermit(i) => i < |s.conns| && s.conns[i].Leaving?
  }

  function Next<Ip(==)>(cfg: Config, s: State<Ip>, e: Event<Ip>): State<Ip>
    requires Enabled(s, e)
  {
    match e
    case Accept(ip) =>
      if s.permits == 0 then s
      else s.(permits := s.permits - 1, conns := s.conns + [Permitted(ip)])
    case Count(i) =>
      var ip := s.conns[i].ip;
      var n := CountOf(s.counts, ip);
      var leaving := s.(conns := s.conns[i := Leaving]);
      if cfg.maxPerIp != 0 && n >= IpCap(cfg) then leaving.(counts := s.counts[ip := n])
      else if n + 1 == TWO_32 then leaving.(counts := s.counts[ip := n], stopped := true)
      else s.(counts := s.counts[ip := n + 1], conns := s.conns[i := Live(ip)])
    case DropGuard(i) =>
      s.(counts := Released(s.counts, s.conns[i].ip), conns := s.conns[i := Leaving])
    case DropPermit(i) =>
      s.(permits := s.permits + 1, conns := s.conns[i := Gone])
  }

  /** The effect of dropping an address guard: a saturating decrement, and no entry at zero. */
  function Released<Ip(==)>(counts: map<Ip, nat>, ip: Ip): map<Ip, nat> {
    if ip !in counts then counts
    else if counts[ip] <= 1 then Without(counts, ip)
    else counts[ip := counts[ip] - 1]
  }

  class ConnectionTable<Ip(==)> {
    const cfg: Config
    var permits: nat
    var perIp: map<Ip, nat>
    var stopped: bool
    ghost var conns: seq<Phase<Ip>>

    ghost function View(): State<Ip>
      reads this
    {
      State(permits, perIp, stopped, conns)
    }

    constructor (cfg: Config)
      ensures this.cfg == cfg && View() == Start(cfg)
    {
      this.cfg, permits, perIp, stopped, conns := cfg, GlobalCap(cfg), map[], false, [];
    }

    method TryAcquire(ip: Ip) returns (ok: bool)
      requires Enabled(View(), Accept(ip))
      modifies this
      ensures View() == Next(cfg, old(View()), Accept(ip))
      ensures ok <==> old(permits) > 0
    {
      ok := permits > 0;
      if ok {
        permits := permits - 1;
        conns := conns + [Permitted(ip)];
      }
    }

    /** The per-address half of accepting; `i` identifies the connection. */
    method CountIp(ip: Ip, ghost i: nat) returns (ok: bool)
      requires Enabled(View(), Count(i)) && conns[i] == Permitted(ip)
      modifies this
      ensures View() == Next(cfg, old(View()), Count(i))
      ensures ok <==> conns[i] == Live(ip)
    {
      if ip !in perIp {
        perIp := perIp[ip := 0];
      }
      var count := perIp[ip];
      if cfg.maxPerIp != 0 && count >= cfg.maxPerIp % TWO_32 {
        conns := conns[i := Leaving];
        return false;
      }
      if count + 1 == TWO_32 {
        // overflow checks are on: the accept loop panics
        stopped := true;
        conns := conns[i := Leaving];
        return false;
      }
      perIp := perIp[ip := count + 1];
      conns := conns[i := Live(ip)];
      ok := true;
    }

    method DropIpGuard(ip: Ip, ghost i: nat)
      requires Enabled(View(), DropGuard(i)) && conns[i] == Live(ip)
      modifies this
      ensures View() == Next(cfg, old(View()), DropGuard(i))
    {
      if ip in perIp {
        var left := if perIp[ip] == 0 then 0 else perIp[ip] - 1;
        perIp := if left == 0 then Without(perIp, ip) else perIp[ip := left];
      }
      conns := conns[i := Leaving];
    }

    method ReturnPermit(ghost i: nat)
      requires Enabled(View(), DropPermit(i))
      modifies this
      ensures View() == Next(cfg, old(View()), DropPermit(i))
    {
      permits := permits + 1;
      conns := conns[i := Gone];
    }
  }

  // ---- What every interleaving keeps ----

  /** Address guards alive for one address. */
  ghost function Guards<Ip>(conns: seq<Phase<Ip>>, ip: Ip): nat {
    if conns == [] then 0
    else Guards(conns[..|conns| - 1], ip) + if conns[|conns| - 1] == Live(ip) then 1 else 0
  }

  /** Address guards alive in all. */
  ghost function AllGuards<Ip>(conns: seq<Phase<Ip>>): nat {
    if conns == [] then 0
    else AllGuards(conns[..|conns| - 1]) + if conns[|conns| - 1].Live? then 1 else 0
  }

  /** Permits held. */
  ghost function Held<Ip>(conns: seq<Phase<Ip>>): nat {
    if conns == [] then 0
    else Held(conns[..|conns| - 1]) + if conns[|conns| - 1].Gone? then 0 else 1
  }

  function Itself(n: nat): nat { n }

  ghost predicate Inv<Ip(!new)>(cfg: Config, s: State<Ip>) {
    && s.permits + Held(s.conns) == GlobalCap(cfg)
    && (forall ip :: CountOf(s.counts, ip) == Guards(s.conns, ip))
    && TotalSize(s.counts, Itself) == AllGuards(s.conns)
    && (forall ip | ip in s.counts :: s.counts[ip] < TWO_32)
    && (cfg.maxPerIp != 0 ==> forall ip | ip in s.counts :: s.counts[ip] <= IpCap(cfg))
  }

  /** No address keeps an entry without a connection. */
  ghost predicate NoZero<Ip>(s: State<Ip>) {
    forall ip | ip in s.counts :: s.counts[ip] > 0
  }

  lemma {:induction false} RecountGuards<Ip>(conns: seq<Phase<Ip>>, i: nat, p: Phase<Ip>, ip: Ip)
    requires i < |conns|
    ensures Guards(conns[i := p], ip) == Guards(conns, ip) - (if conns[i] == Live(ip) then 1 else 0) + (if p == Live(ip) then 1 else 0)
  {
    var n := |conns| - 1;
    if i == n {
      assert conns[i := p][..n] == conns[..n];
    } else {
      RecountGuards(conns[..n], i, p, ip);
      assert conns[i := p][..n] == conns[..n][i := p];
    }
  }

  lemma {:induction false} Recount<Ip>(conns: seq<Phase<Ip>>, i: nat, p: Phase<Ip>)
    requires i < |conns|
    ensures AllGuards(conns[i := p]) == AllGuards(conns) - (if conns[i].Live? then 1 else 0) + (if p.Live? then 1 else 0)
    ensures Held(conns[i := p]) == Held(conns) - (if conns[i].Gone? then 0 else 1) + (if p.Gone? then 0 else 1)
  {
    var n := |conns| - 1;
    if i == n {
      assert conns[i := p][..n] == conns[..n];
    } else {
      Recount(conns[..n], i, p);
      assert conns[i := p][..n] == conns[..n][i := p];
    }
  }

  lemma {:induction false} GuardsHold<Ip>(conns: seq<Phase<Ip>>)
    ensures AllGuards(conns) <= Held(conns)
  {
    if conns != [] {
      GuardsHold(conns[..|conns| - 1]);
    }
  }

  /** Moving one connection from `conns[i]` to `p` while its address goes from `n` to `m` counted connections. */
  lemma Moved<Ip(!new)>(cfg: Config, s: State<Ip>, t: State<Ip>, i: nat, p: Phase<Ip>, ip: Ip)
    requires Inv(cfg, s) && i < |s.conns| && t.conns == s.conns[i := p]
    requires s.conns[i].Live? ==> s.conns[i].ip == ip
    requires p.Live? ==> p.ip == ip
    requires t.permits == s.permits + (if s.conns[i].Gone? then 0 else 1) - (if p.Gone? then 0 else 1)
    requires CountOf(t.counts, ip) == CountOf(s.counts, ip) - (if s.conns[i].Live? then 1 else 0) + (if p.Live? then 1 else 0)
    requires Without(t.counts, ip) == Without(s.counts, ip)
    requires ip in t.counts ==> t.counts[ip] < TWO_32 && (cfg.maxPerIp != 0 ==> t.counts[ip] <= IpCap(cfg))
    ensures Inv(cfg, t)
  {
    hide Guards, AllGuards, Held, TotalSize;
    Recount(s.conns, i, p);
    forall other
      ensures CountOf(t.counts, other) == Guards(t.conns, other)
    {
      RecountGuards(s.conns, i, p, other);
      SameElsewhere(s.counts, t.counts, ip, other);
    }
    forall other | other in t.counts
      ensures t.counts[other] < TWO_32 && (cfg.maxPerIp != 0 ==> t.counts[other] <= IpCap(cfg))
    {
      SameElsewhere(s.counts, t.counts, ip, other);
    }
    Shares(s.counts, ip);
    Shares(t.counts, ip);
  }

  lemma SameElsewhere<Ip>(a: map<Ip, nat>, b: map<Ip, nat>, ip: Ip, other: Ip)
    requires Without(a, ip) == Without(b, ip)
    ensures other != ip ==> (other in a <==> other in b) && CountOf(a, other) == CountOf(b, other)
  {
    assert other in Without(a, ip) <==> other in a && other != ip;
    assert other in Without(b, ip) <==> other in b && other != ip;
    if other in a && other != ip {
      assert Without(a, ip)[other] == a[other] && Without(b, ip)[other] == b[other];
    }
  }

  lemma Shares<Ip>(counts: map<Ip, nat>, ip: Ip)
    ensures TotalSize(counts, Itself) == CountOf(counts, ip) + TotalSize(Without(counts, ip), Itself)
  {
    if ip in counts {
      TotalSizeDrop(counts, Itself, ip);
    } else {
      assert Without(counts, ip) == counts;
    }
  }

  lemma StartInv<Ip(!new)>(cfg: Config)
    ensures Inv(cfg, Start<Ip>(cfg))
  {
  }

  lemma AcceptKeepsInv<Ip(!new)>(cfg: Config, s: State<Ip>, ip: Ip)
    requires Inv(cfg, s) && Enabled(s, Accept(ip))
    ensures Inv(cfg, Next(cfg, s, Accept(ip)))
  {
    hide TotalSize;
    var t := Next(cfg, s, Accept(ip));
    if s.permits > 0 {
      assert t.conns[..|s.conns|] == s.conns;
    }
  }

  lemma CountKeepsInv<Ip(!new)>(cfg: Config, s: State<Ip>, i: nat)
    requires Inv(cfg, s) && Enabled(s, Event<Ip>.Count(i))
    ensures Inv(cfg, Next(cfg, s, Count(i)))
  {
    hide Inv;
    var t, ip := Next(cfg, s, Count(i)), s.conns[i].ip;
    assert Without(t.counts, ip) == Without(s.counts, ip);
    CountBounded(cfg, s, ip);
    Moved(cfg, s, t, i, t.conns[i], ip);
  }

  lemma DropGuardKeepsInv<Ip(!new)>(cfg: Config, s: State<Ip>, i: nat)
    requires Inv(cfg, s) && Enabled(s, Event<Ip>.DropGuard(i))
    ensures Inv(cfg, Next(cfg, s, DropGuard(i)))
  {
    hide Inv;
    var t, ip := Next(cfg, s, DropGuard(i)), s.conns[i].ip;
    assert Without(t.counts, ip) == Without(s.counts, ip);
    CountBounded(cfg, s, ip);
    GuardIsCounted(cfg, s, i);
    Moved(cfg, s, t, i, Leaving, ip);
  }

  lemma DropPermitKeepsInv<Ip(!new)>(cfg: Config, s: State<Ip>, i: nat)
    requires Inv(cfg, s) && Enabled(s, Event<Ip>.DropPermit(i))
    ensures Inv(cfg, Next(cfg, s, DropPermit(i)))
  {
    hide Guards, AllGuards, Held, TotalSize;
    Recount(s.conns, i, Gone);
    forall ip: Ip
      ensures Guards(s.conns[i := Gone], ip) == Guards(s.conns, ip)
    {
      RecountGuards(s.conns, i, Gone, ip);
    }
  }

  lemma NextKeepsInv<Ip(!new)>(cfg: Config, s: State<Ip>, e: Event<Ip>)
    requires Inv(cfg, s) && Enabled(s, e)
    ensures Inv(cfg, Next(cfg, s, e))
  {
    hide Inv, Next;
    match e
    case Accept(ip) => AcceptKeepsInv(cfg, s, ip);
    case Count(i) => CountKeepsInv(cfg, s, i);
    case DropGuard(i) => DropGuardKeepsInv(cfg, s, i);
    case DropPermit(i) => DropPermitKeepsInv(cfg, s, i);
  }

  lemma CountBounded<Ip(!new)>(cfg: Config, s: State<Ip>, ip: Ip)
    requires Inv(cfg, s)
    ensures CountOf(s.counts, ip) < TWO_32 && (cfg.maxPerIp != 0 ==> CountOf(s.counts, ip) <= IpCap(cfg))
  {
  }

  lemma {:induction false} LiveIsGuard<Ip>(conns: seq<Phase<Ip>>, i: nat)
    requires i < |conns| && conns[i].Live?
    ensures Guards(conns, conns[i].ip) >= 1
  {
    var n := |conns| - 1;
    if i < n {
      LiveIsGuard(conns[..n], i);
    }
  }

  /** The saturating decrement never saturates: a live guard's address is counted. */
  lemma GuardIsCounted<Ip(!new)>(cfg: Config, s: State<Ip>, i: nat)
    requires Inv(cfg, s) && i < |s.conns| && s.conns[i].Live?
    ensures s.conns[i].ip in s.counts && s.counts[s.conns[i].ip] >= 1
  {
    LiveIsGuard(s.conns, i);
    assert CountOf(s.counts, s.conns[i].ip) >= 1;
  }

  /** A listener after a sequence of events, any of them skipped while impossible. */
  function After<Ip(==)>(cfg: Config, run: seq<Event<Ip>>): State<Ip> {
    if run == [] then Start(cfg)
    else
      var s, e := After(cfg, run[..|run| - 1]), run[|run| - 1];
      if Enabled(s, e) then Next(cfg, s, e) else s
  }

  lemma {:induction false} RunKeepsInv<Ip(!new)>(cfg: Config, run: seq<Event<Ip>>)
    ensures Inv(cfg, After(cfg, run))
  {
    hide Inv, Next, Enabled;
    if run == [] {
      StartInv<Ip>(cfg);
    } else {
      var s, e := After(cfg, run[..|run| - 1]), run[|run| - 1];
      RunKeepsInv(cfg, run[..|run| - 1]);
      if Enabled(s, e) {
        NextKeepsInv(cfg, s, e);
      }
    }
  }

  /** Both limits hold in every interleaving, and the table never counts more than the permits held. */
  lemma LimitsHold<Ip(!new)>(cfg: Config, run: seq<Event<Ip>>, ip: Ip)
    ensures var s := After(cfg, run);
            && TotalSize(s.counts, Itself) <= Held(s.conns) <= GlobalCap(cfg)
            && (cfg.maxConnections != 0 ==> Held(s.conns) <= cfg.maxConnections)
            && s.permits == GlobalCap(cfg) - Held(s.conns)
            && CountOf(s.counts, ip) == Guards(s.conns, ip)
            && (cfg.maxPerIp != 0 ==> Guards(s.conns, ip) <= cfg.maxPerIp % TWO_32 <= cfg.maxPerIp)
  {
    hide After, Guards, AllGuards, Held, TotalSize;
    var s := After(cfg, run);
    RunKeepsInv(cfg, run);
    GuardsHold(s.conns);
    CountBounded(cfg, s, ip);
  }

  /**
   * Who gets in, exactly. In every reachable state a client gets a permit just when fewer are held than the global cap
   * allows, and past that is let in just when its address has fewer connections than the cap per address, truncated to
   * 32 bits, allows and their number does not overflow, which stops the accept loop.
   */
  lemma AdmittedExactly<Ip(!new)>(cfg: Config, run: seq<Event<Ip>>, ip: Ip, i: nat)
    ensures var s := After(cfg, run);
            && (Enabled(s, Accept(ip)) ==>
                  Next(cfg, s, Accept(ip)).conns ==
                  if Held(s.conns) < (if cfg.maxConnections != 0 then cfg.maxConnections else 0x1FFF_FFFF_FFFF_FFFF)
                  then s.conns + [Permitted(ip)] else s.conns)
            && (Enabled(s, Event<Ip>.Count(i)) && s.conns[i].ip == ip ==>
                  Next(cfg, s, Count(i)).conns ==
                  s.conns[i := if (cfg.maxPerIp == 0 || Guards(s.conns, ip) < cfg.maxPerIp % 0x1_0000_0000)
                                  && Guards(s.conns, ip) + 1 < 0x1_0000_0000
                               then Live(ip) else Leaving]
                  && (Next(cfg, s, Count(i)).stopped <==>
                        s.stopped || (cfg.maxPerIp == 0 && Guards(s.conns, ip) == 0xFFFF_FFFF)))
  {
    hide After, Guards, Held, AllGuards, TotalSize;
    var s := After(cfg, run);
    RunKeepsInv(cfg, run);
    CountBounded(cfg, s, ip);
  }

  /** The caps for which a refused address can be left in the table with no connection. */
  predicate TruncatesToZero(cfg: Config) {
    cfg.maxPerIp != 0 && cfg.maxPerIp % TWO_32 == 0
  }

  lemma {:induction false} RunKeepsNoZero<Ip(!new)>(cfg: Config, run: seq<Event<Ip>>)
    requires !TruncatesToZero(cfg)
    ensures NoZero(After(cfg, run))
  {
    if run != [] {
      RunKeepsNoZero(cfg, run[..|run| - 1]);
    }
  }

  /** In every run no address keeps a zero entry, exactly when the per-address cap does not truncate to zero. */
  lemma NoZeroExactly<Ip(!new)>(cfg: Config, ip: Ip)
    ensures (forall run: seq<Event<Ip>> :: NoZero(After(cfg, run))) <==> !TruncatesToZero(cfg)
  {
    if TruncatesToZero(cfg) {
      RefusedLeavesZero(cfg, ip);
    } else {
      forall run: seq<Event<Ip>>
        ensures NoZero(After(cfg, run))
      {
        RunKeepsNoZero(cfg, run);
      }
    }
  }

  lemma RefusedLeavesZero<Ip>(cfg: Config, ip: Ip)
    requires TruncatesToZero(cfg)
    ensures !NoZero(After(cfg, [Accept(ip), Count(0)]))
  {
    var run := [Accept(ip), Count(0)];
    assert run[..1] == [Accept(ip)];
    assert run[..1][..0] == [];
    assert After(cfg, run[..1]).conns == [Permitted(ip)];
    assert ip in After(cfg, run).counts;
  }

  lemma {:induction false} NothingHeld<Ip>(conns: seq<Phase<Ip>>, ip: Ip)
    requires forall i :: 0 <= i < |conns| ==> conns[i].Gone?
    ensures Held(conns) == 0 && Guards(conns, ip) == 0
  {
    if conns != [] {
      NothingHeld(conns[..|conns| - 1], ip);
    }
  }

  /** Nothing leaks: once every task has ended, all permits are back and the table is empty. */
  lemma NoLeak<Ip(!new)>(cfg: Config, run: seq<Event<Ip>>, ip: Ip)
    ensures var s := After(cfg, run);
            (forall i :: 0 <= i < |s.conns| ==> s.conns[i].Gone?) ==>
              && s.permits == GlobalCap(cfg)
              && (!TruncatesToZero(cfg) ==> ip !in s.counts)
  {
    hide After, Guards, AllGuards, Held, TotalSize, TruncatesToZero;
    var s := After(cfg, run);
    RunKeepsInv(cfg, run);
    if forall i :: 0 <= i < |s.conns| ==> s.conns[i].Gone? {
      NothingHeld(s.conns, ip);
      assert CountOf(s.counts, ip) == 0;
      if !TruncatesToZero(cfg) {
        RunKeepsNoZero(cfg, run);
      }
    }
  }
}
