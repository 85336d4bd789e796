/**
 * `DuplicateSubmitGuard` of share_handler.rs and the locked regions of `handle_submit` that use it.
 * Time is a natural number; every locked region is one atomic event, so a list of events is an
 * arbitrary interleaving of concurrent submits.
 */
module SubmitGuard {
  import opened Util
  import opened FifoGuard

  datatype Outcome = InFlight | Accepted | Stale | LowDiff | Bad

  type Guard = Table<Outcome>

  const EMPTY: Guard := Table(map[], [])

  function Lookup(g: Guard, key: Key): Option<Outcome> {
    if key in g.entries then Some(g.entries[key].value) else None
  }

  function WithInflight(g: Guard, key: Key, now: nat): Guard {
    if key in g.entries then g
    else Table(g.entries[key := Entry(now, InFlight)], g.order + [key])
  }

  function WithOutcome(g: Guard, key: Key, now: nat, outcome: Outcome): Guard {
    if key in g.entries then g.(entries := g.entries[key := Entry(now, outcome)]) else g
  }

  class DuplicateSubmitGuard {
    const limits: Limits
    var entries: map<Key, Entry<Outcome>>
    var order: seq<Key>

    ghost predicate Valid()
      reads this
    {
      OneToOne(Contents())
    }

    ghost function Contents(): Guard
      reads this
    {
      Table(entries, order)
    }

    constructor (ttl: nat, maxEntries: nat)
      ensures Valid() && Contents() == EMPTY && limits == Limits(ttl, maxEntries)
    {
      limits, entries, order := Limits(ttl, maxEntries), map[], [];
    }

    method PruneAt(now: nat)
      requires Valid()
      modifies this
      ensures Valid() && Contents() == Pruned(old(Contents()), now, limits)
    {
      PrunedKeeps(Contents(), now, limits);
      var t := Prune(Table(entries, order), now, limits);
      entries, order := t.entries, t.order;
    }

    method Get(key: Key, now: nat) returns (r: Option<Outcome>)
      requires Valid()
      modifies this
      ensures Valid() && Contents() == Pruned(old(Contents()), now, limits)
      ensures r == Lookup(Contents(), key)
    {
      PruneAt(now);
      r := if key in entries then Some(entries[key].value) else None;
    }

    method InsertInflight(key: Key, now: nat)
      requires Valid()
      modifies this
      ensures Valid() && Contents() == WithInflight(Pruned(old(Contents()), now, limits), key, now)
    {
      PruneAt(now);
      if key in entries {
        return;
      }
      InsertKeepsShape(Contents(), key, now);
      entries := entries[key := Entry(now, InFlight)];
      order := order + [key];
    }

    method SetOutcome(key: Key, now: nat, outcome: Outcome)
      requires Valid()
      modifies this
      ensures Valid() && Contents() == Step(limits, old(Contents()), Finish(key, now, outcome))
    {
      PruneAt(now);
      if key in entries {
        entries := entries[key := Entry(now, outcome)];
      }
    }

    /** The critical section that opens a submit: look the key up and reserve it when it is new. */
    method Enter(key: Key, now: nat) returns (duplicate: Option<Outcome>)
      requires Valid()
      modifies this
      ensures Valid() && Contents() == Step(limits, old(Contents()), Submit(key, now))
      ensures duplicate == Lookup(Pruned(old(Contents()), now, limits), key)
    {
      duplicate := Get(key, now);
      if duplicate.None? {
        InsertInflight(key, now);
      }
    }
  }

  lemma InsertKeepsShape(g: Guard, key: Key, now: nat)
    requires OneToOne(g)
    ensures OneToOne(WithInflight(g, key, now))
  {
  }

  /** One critical section of some submit task: the opening lookup, or the recording of a verdict. */
  datatype Event =
    | Submit(key: Key, now: nat)
    | Finish(key: Key, now: nat, outcome: Outcome)

  function Step(limits: Limits, g: Guard, e: Event): Guard {
    var p := Pruned(g, e.now, limits);
    match e
    case Submit(key, now) => if key in p.entries then p else WithInflight(Pruned(p, now, limits), key, now)
    case Finish(key, now, outcome) => WithOutcome(p, key, now, outcome)
  }

  /** The guard after the first `n` events of a run. */
  function After(limits: Limits, es: seq<Event>, n: nat): Guard
    requires n <= |es|
  {
    if n == 0 then EMPTY else Step(limits, After(limits, es, n - 1), es[n - 1])
  }

  /** Event `i` opens a submit whose key is unknown, so the share goes on to be evaluated. */
  predicate Admitted(limits: Limits, es: seq<Event>, i: nat)
    requires i < |es|
  {
    es[i].Submit? && Lookup(Pruned(After(limits, es, i), es[i].now, limits), es[i].key).None?
  }

  /** Number of events in `[from, to)` that admit a key other than `key`. */
  function OtherAdmissions(limits: Limits, es: seq<Event>, from: nat, to: nat, key: Key): nat
    requires to <= |es|
  {
    if to <= from then 0
    else OtherAdmissions(limits, es, from, to - 1, key)
         + if Admitted(limits, es, to - 1) && es[to - 1].key != key then 1 else 0
  }

  /** The last event in `[i, n)` that stamped `key`, given that event `i` inserted it. */
  function LastTouch(es: seq<Event>, i: nat, n: nat, key: Key): (m: nat)
    requires i < n <= |es|
    ensures i <= m < n
  {
    if n - 1 == i || (es[n - 1].Finish? && es[n - 1].key == key) then n - 1
    else LastTouch(es, i, n - 1, key)
  }

  /** The outcome on record for `key` at event `n`. */
  function Recorded(es: seq<Event>, i: nat, n: nat, key: Key): Outcome
    requires i < n <= |es|
  {
    var e := es[LastTouch(es, i, n, key)];
    if e.Finish? then e.outcome else InFlight
  }

  /** No event in `(i, j]` comes more than the TTL after the latest stamp of `key`. */
  ghost predicate KeptAlive(limits: Limits, es: seq<Event>, i: nat, j: nat, key: Key)
    requires j < |es|
  {
    forall m :: i < m <= j ==> es[m].now - es[LastTouch(es, i, m, key)].now <= limits.ttl
  }

  lemma StepOneToOne(limits: Limits, g: Guard, e: Event)
    requires OneToOne(g)
    ensures OneToOne(Step(limits, g, e))
  {
    PrunedKeeps(g, e.now, limits);
    var p := Pruned(g, e.now, limits);
    PrunedKeeps(p, e.now, limits);
    InsertKeepsShape(Pruned(p, e.now, limits), e.key, e.now);
  }

  /** In every interleaving the queue lists the remembered keys exactly once each. */
  lemma {:induction false} AlwaysOneToOne(limits: Limits, es: seq<Event>, n: nat)
    requires n <= |es|
    ensures OneToOne(After(limits, es, n))
  {
    hide Step;
    if n > 0 {
      AlwaysOneToOne(limits, es, n - 1);
      StepOneToOne(limits, After(limits, es, n - 1), es[n - 1]);
    }
  }

  /** `key` has this entry, and exactly `behind` keys are queued after it. */
  ghost predicate Holds(g: Guard, key: Key, behind: nat, entry: Entry<Outcome>) {
    && OneToOne(g)
    && behind < |g.order| && g.order[|g.order| - 1 - behind] == key
    && key in g.entries && g.entries[key] == entry
  }

  lemma HoldsPruned(limits: Limits, g: Guard, key: Key, behind: nat, entry: Entry<Outcome>, now: nat)
    requires Holds(g, key, behind, entry) && now - entry.ts <= limits.ttl && behind < limits.maxEntries
    ensures Holds(Pruned(g, now, limits), key, behind, entry)
  {
    var p := |g.order| - 1 - behind;
    Survival(g, now, limits, p);
    PrunedKeeps(g, now, limits);
    var p' := SurvivorKeepsTail(g, now, limits, p);
  }

  lemma HoldsInsert(g: Guard, key: Key, behind: nat, entry: Entry<Outcome>, other: Key, now: nat)
    requires Holds(g, key, behind, entry) && other !in g.entries
    ensures Holds(WithInflight(g, other, now), key, behind + 1, entry)
  {
    InsertKeepsShape(g, other, now);
  }

  /** One event of any task, seen from a remembered key. */
  lemma HoldsStep(limits: Limits, g: Guard, key: Key, behind: nat, entry: Entry<Outcome>, e: Event)
    requires Holds(g, key, behind, entry) && e.now - entry.ts <= limits.ttl && behind < limits.maxEntries
    ensures Lookup(Pruned(g, e.now, limits), key) == Some(entry.value)
    ensures var admits := e.Submit? && Lookup(Pruned(g, e.now, limits), e.key).None?;
            var stamps := e.Finish? && e.key == key;
            Holds(Step(limits, g, e), key,
                  if admits then behind + 1 else behind,
                  if stamps then Entry(e.now, e.outcome) else entry)
  {
    hide Pruned, OneToOne;
    var p := Pruned(g, e.now, limits);
    HoldsPruned(limits, g, key, behind, entry, e.now);
    if e.Submit? && e.key !in p.entries {
      HoldsPruned(limits, p, key, behind, entry, e.now);
      PrunedKeeps(p, e.now, limits);
      HoldsInsert(Pruned(p, e.now, limits), key, behind, entry, e.key, e.now);
    } else {
      StepOneToOne(limits, g, e);
    }
  }

  lemma HoldsAdmitted(limits: Limits, g: Guard, key: Key, now: nat)
    requires OneToOne(g) && Lookup(Pruned(g, now, limits), key).None?
    ensures Holds(Step(limits, g, Submit(key, now)), key, 0, Entry(now, InFlight))
  {
    StepOneToOne(limits, g, Submit(key, now));
    PrunedKeeps(Pruned(g, now, limits), now, limits);
  }

  /** The two ways a key admitted at event `i` may be lost by event `j` do not apply: no event comes
      more than the TTL after its latest stamp, and fewer than `maxEntries` other keys came in. */
  ghost predicate Undisturbed(limits: Limits, es: seq<Event>, i: nat, j: nat)
    requires i < j < |es|
  {
    && KeptAlive(limits, es, i, j, es[i].key)
    && OtherAdmissions(limits, es, i + 1, j, es[i].key) < limits.maxEntries
  }

  /** The run invariant of an admitted key: its entry is the latest stamp, and the keys queued behind
      it are exactly those admitted since. */
  lemma {:induction false} HeldThrough(limits: Limits, es: seq<Event>, i: nat, n: nat)
    requires i < n < |es|
    ensures Admitted(limits, es, i) && Undisturbed(limits, es, i, n) ==>
              Holds(After(limits, es, n), es[i].key, OtherAdmissions(limits, es, i + 1, n, es[i].key),
                    Entry(es[LastTouch(es, i, n, es[i].key)].now, Recorded(es, i, n, es[i].key)))
    decreases n
  {
    hide Step, Pruned, Holds;
    if !Admitted(limits, es, i) || !Undisturbed(limits, es, i, n) {
      return;
    }
    if n == i + 1 {
      AlwaysOneToOne(limits, es, i);
      HoldsAdmitted(limits, After(limits, es, i), es[i].key, es[i].now);
    } else {
      var m, key := n - 1, es[i].key;
      HeldThrough(limits, es, i, m);
      HoldsStep(limits, After(limits, es, m), key, OtherAdmissions(limits, es, i + 1, m, key),
                Entry(es[LastTouch(es, i, m, key)].now, Recorded(es, i, m, key)), es[m]);
    }
  }

  /**
   * Never forgotten too early. A key admitted at event `i` is found by every later lookup, with the
   * outcome last recorded for it, as long as no event comes more than the TTL after its latest stamp
   * and fewer than `maxEntries` other keys have been admitted since.
   */
  lemma Remembered(limits: Limits, es: seq<Event>, i: nat, j: nat)
    requires i < j < |es|
    ensures Admitted(limits, es, i) && Undisturbed(limits, es, i, j) ==>
              Lookup(Pruned(After(limits, es, j), es[j].now, limits), es[i].key)
              == Some(Recorded(es, i, j, es[i].key))
  {
    hide Step, Pruned, Holds;
    if Admitted(limits, es, i) && Undisturbed(limits, es, i, j) {
      var key := es[i].key;
      HeldThrough(limits, es, i, j);
      HoldsStep(limits, After(limits, es, j), key, OtherAdmissions(limits, es, i + 1, j, key),
                Entry(es[LastTouch(es, i, j, key)].now, Recorded(es, i, j, key)), es[j]);
    }
  }

  /**
   * At most one evaluation. In every interleaving, the same key is admitted a second time only after
   * a gap longer than the TTL since its latest stamp, or after `maxEntries` other admissions.
   */
  lemma EvaluatedOnce(limits: Limits, es: seq<Event>, i: nat, j: nat)
    requires i < j < |es| && es[i].key == es[j].key
    ensures Admitted(limits, es, i) && Admitted(limits, es, j) ==> !Undisturbed(limits, es, i, j)
  {
    hide Step, Pruned, After, Undisturbed;
    Remembered(limits, es, i, j);
  }

  /**
   * The converse fails: an entry may outlive its TTL. Recording an outcome refreshes a stamp without
   * moving the key in the queue, so a fresh key at the front shields expired keys behind it.
   */
  lemma ExpiredEntryIsStillFound(limits: Limits, a: Key, b: Key)
    requires limits.ttl >= 2 && limits.maxEntries >= 2 && a != b
    ensures var es := [Submit(a, 0), Submit(b, 1), Finish(a, limits.ttl, Accepted)];
            Lookup(Pruned(After(limits, es, 3), limits.ttl + 2, limits), b) == Some(InFlight)
  {
    hide Pruned;
    var es := [Submit(a, 0), Submit(b, 1), Finish(a, limits.ttl, Accepted)];
    var g1: Guard := Table(map[a := Entry(0, InFlight)], [a]);
    var g2: Guard := Table(map[a := Entry(0, InFlight), b := Entry(1, InFlight)], [a, b]);
    var g3: Guard := Table(map[a := Entry(limits.ttl, Accepted), b := Entry(1, InFlight)], [a, b]);
    EmptyPruned<Outcome>(0, limits);
    assert After(limits, es, 1) == g1;
    FreshFrontShields(g1, 1, limits);
    assert After(limits, es, 2) == g2;
    FreshFrontShields(g2, limits.ttl, limits);
    assert After(limits, es, 3) == g3;
    FreshFrontShields(g3, limits.ttl + 2, limits);
  }
}
