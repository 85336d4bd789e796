/**
 * The walk-back search of `handle_submit` (share_handler.rs): a share that misses the pool target of
 * the submitted job is tried against the jobs before it, because some ASICs report a wrong job id.
 * Jobs may be added, and the pool target changed, between any two iterations.
 */
module WalkBack {
  import opened Util
  import opened JobRing

  /** How `submit_block` ends for a candidate: accepted, answered with an unsuccessful report, refused as a duplicate
      block, or failed in some other way. `KaspaApi` turns an unsuccessful report into an error, so with it such blocks
      end as `OtherError`, and a refusal as a duplicate can only come from its own guard; `BlockRejected` is left to
      other implementations of its trait. */
  datatype NodeReply = BlockAccepted | BlockRejected | DuplicateBlock | OtherError

  datatype Verdict = MissingJob | ValidShare | LowDifficulty | StaleBlock | BadBlock

  /** What one submit observes. `log(k)` is the job log at its k-th ring lookup, `pool(k)` the pool
      target and `node(k)` the answer of the node while the k-th candidate is judged; `pow` and
      `network` are the PoW value of the submitted nonce and the network target of a job. */
  datatype World<!Job> = World(
    log: nat -> seq<Job>,
    pool: nat -> nat,
    node: nat -> NodeReply,
    pow: Job -> nat,
    network: Job -> nat)

  /** The verdict on candidate `k`, or none when it meets neither target. */
  function Judge<Job>(w: World<Job>, job: Job, k: nat): Option<Verdict> {
    if w.pow(job) <= w.network(job) then
      Some(match w.node(k)
           case BlockAccepted => ValidShare
           case BlockRejected => LowDifficulty
           case DuplicateBlock => StaleBlock
           case OtherError => BadBlock)
    else if w.pow(job) < w.pool(k) then Some(ValidShare)
    else None
  }

  /** Candidate `k` of a submit for `jobId`: the job with id `jobId - k`, if the ring holds it then. */
  function Candidate<Job>(w: World<Job>, jobId: nat, k: nat): Option<Job> {
    if k <= jobId then Recent(w.log(k), jobId - k) else None
  }

  /** Candidate `k` was in the ring and met neither target. */
  predicate Missed<Job>(w: World<Job>, jobId: nat, k: nat) {
    Candidate(w, jobId, k).Some? && Judge(w, Candidate(w, jobId, k).value, k).None?
  }

  /** The search can go no further than candidate `k`. */
  predicate Exhausted<Job>(w: World<Job>, jobId: nat, k: nat) {
    k + 1 == 300 || Candidate(w, jobId, k + 1).None?
  }

  /** The outcome of a whole search over the candidates `0..n`. */
  ghost predicate WalkedBack<Job>(w: World<Job>, jobId: nat, verdict: Verdict, n: nat) {
    if Candidate(w, jobId, 0).None? then n == 0 && verdict == MissingJob
    else
      && 1 <= n <= 300
      && (forall k :: 0 <= k < n - 1 ==> Missed(w, jobId, k) && !Exhausted(w, jobId, k))
      && Candidate(w, jobId, n - 1).Some?
      && var last := Judge(w, Candidate(w, jobId, n - 1).value, n - 1);
         if last.Some? then verdict == last.value
         else verdict == LowDifficulty && Exhausted(w, jobId, n - 1)
  }

  lemma WrapTest(jobId: nat, k: nat)
    requires k < 300 && k <= jobId
    ensures (jobId - k) % 300 == (jobId % 300 + 1) % 300 <==> k == 299
  {
  }

  /**
   * The search loop. It visits at most 300 candidates, each of them once and in descending id order,
   * never reaches id 0, and stops at the first candidate that meets a target.
   */
  method Evaluate<Job>(w: World<Job>, jobId: nat) returns (verdict: Verdict, visited: seq<nat>)
    ensures WalkedBack(w, jobId, verdict, |visited|)
    ensures forall k :: 0 <= k < |visited| ==> visited[k] == jobId - k && visited[k] >= 1
  {
    var found := Recent(w.log(0), jobId);
    if found.None? {
      return MissingJob, [];
    }
    var job, current, invalid := found.value, jobId, false;
    visited := [];
    while true
      invariant |visited| < 300 && current == jobId - |visited| && current >= 1
      invariant Candidate(w, jobId, |visited|) == Some(job)
      invariant forall k :: 0 <= k < |visited| ==> visited[k] == jobId - k && visited[k] >= 1
      invariant forall k :: 0 <= k < |visited| ==> Missed(w, jobId, k) && !Exhausted(w, jobId, k)
      invariant invalid == (visited != [])
      decreases current
    {
      var k := |visited|;
      visited := visited + [current];
      if w.pow(job) <= w.network(job) {
        match w.node(k)
        case BlockRejected => invalid := true; break;
        case BlockAccepted => invalid := false; break;
        case DuplicateBlock => return StaleBlock, visited;
        case OtherError => return BadBlock, visited;
      }
      if w.pow(job) >= w.pool(k) {
        if current == jobId {
          invalid := true;
        }
        WrapTest(jobId, k);
        if current == 1 || current % MAX_JOBS == (jobId % MAX_JOBS + 1) % MAX_JOBS {
          break;
        }
        var previous := Recent(w.log(k + 1), current - 1);
        if previous.None? {
          break;
        }
        current, job := current - 1, previous.value;
      } else {
        invalid := false;
        break;
      }
    }
    verdict := if invalid then LowDifficulty else ValidShare;
  }

  /** The contract of the search determines its result. */
  lemma WalkedBackUnique<Job>(w: World<Job>, jobId: nat, v: Verdict, n: nat, v': Verdict, n': nat)
    requires WalkedBack(w, jobId, v, n) && WalkedBack(w, jobId, v', n')
    ensures v == v' && n == n'
  {
    if Candidate(w, jobId, 0).Some? {
      var last: nat, last': nat := n - 1, n' - 1;
      assert !Missed(w, jobId, last) || Exhausted(w, jobId, last);
      assert !Missed(w, jobId, last') || Exhausted(w, jobId, last');
    }
  }

  /**
   * What a verdict means, in terms of the PoW value and the two targets. Every candidate but the last misses both. The
   * last one decides: a block by the answer of the node, a share by the pool target, and a miss ends the search because
   * 300 candidates have been tried or the ring does not hold the next one.
   */
  lemma VerdictMeans<Job>(w: World<Job>, jobId: nat, v: Verdict, n: nat)
    requires WalkedBack(w, jobId, v, n) && n >= 1
    ensures n <= 300 && n <= jobId
    ensures forall k :: 0 <= k < n - 1 ==>
              var job := Recent(w.log(k), jobId - k);
              job.Some? && w.network(job.value) < w.pow(job.value) && w.pool(k) <= w.pow(job.value)
    ensures var job := Recent(w.log(n - 1), jobId - (n - 1));
            && job.Some?
            && var pow, network, pool, node := w.pow(job.value), w.network(job.value), w.pool(n - 1), w.node(n - 1);
               && (v == ValidShare <==> if pow <= network then node == BlockAccepted else pow < pool)
               && (v == StaleBlock <==> pow <= network && node == DuplicateBlock)
               && (v == BadBlock <==> pow <= network && node == OtherError)
               && (v == LowDifficulty <==> if pow <= network then node == BlockRejected else pool <= pow)
               && (network < pow && pool <= pow ==> n == 300 || n == jobId || Recent(w.log(n), jobId - n).None?)
  {
    forall k | 0 <= k < n - 1
      ensures var job := Recent(w.log(k), jobId - k);
              job.Some? && w.network(job.value) < w.pow(job.value) && w.pool(k) <= w.pow(job.value)
    {
      assert Missed(w, jobId, k);
    }
  }

  /** A submit is answered with a missing job exactly when the ring does not hold the submitted id. */
  lemma MissingMeans<Job>(w: World<Job>, jobId: nat, v: Verdict, n: nat)
    requires WalkedBack(w, jobId, v, n)
    ensures v == MissingJob <==> Recent(w.log(0), jobId).None?
    ensures v == MissingJob <==> n == 0
  {
  }

  /** The lowest id an unchanging ring of `n` jobs still holds. */
  function Oldest(n: nat): nat {
    if n <= 300 then 1 else n - 299
  }

  /** A ring id not above the submitted one whose job meets the network or the pool target. */
  ghost predicate Hit<Job>(w: World<Job>, log: seq<Job>, jobId: nat, id: nat) {
    && Oldest(|log|) <= id <= jobId <= |log|
    && (w.pow(log[id - 1]) <= w.network(log[id - 1]) || w.pow(log[id - 1]) < w.pool(jobId - id))
  }

  ghost predicate FirstHit<Job>(w: World<Job>, log: seq<Job>, jobId: nat, id: nat) {
    Hit(w, log, jobId, id) && forall d :: id < d ==> !Hit(w, log, jobId, d)
  }

  /** The highest ring id meeting a target is that of a block which the node answers with `reply`. */
  ghost predicate FirstHitAnswered<Job>(w: World<Job>, log: seq<Job>, jobId: nat, reply: NodeReply) {
    exists id :: FirstHit(w, log, jobId, id) && w.pow(log[id - 1]) <= w.network(log[id - 1]) && w.node(jobId - id) == reply
  }

  /**
   * On an unchanging ring the search covers exactly the ids from the submitted one down to the oldest. The highest of
   * them meeting a target decides: the share is credited just when that is a pool-valid share or a block the node
   * takes, refused blocks are told apart by the node's answer, and without a hit the difficulty was too low.
   */
  lemma UnchangingRing<Job>(w: World<Job>, log: seq<Job>, jobId: nat, verdict: Verdict, n: nat)
    requires forall k: nat :: w.log(k) == log
    requires WalkedBack(w, jobId, verdict, n)
    requires Oldest(|log|) <= jobId <= |log|
    ensures if exists id :: Hit(w, log, jobId, id)
            then FirstHit(w, log, jobId, jobId - n + 1)
            else verdict == LowDifficulty && n == jobId - Oldest(|log|) + 1
    ensures verdict == ValidShare <==>
              exists id :: FirstHit(w, log, jobId, id)
                && (w.pow(log[id - 1]) <= w.network(log[id - 1]) ==> w.node(jobId - id) == BlockAccepted)
    ensures verdict == StaleBlock <==> FirstHitAnswered(w, log, jobId, DuplicateBlock)
    ensures verdict == BadBlock <==> FirstHitAnswered(w, log, jobId, OtherError)
    ensures verdict == LowDifficulty <==>
              (forall id :: !Hit(w, log, jobId, id)) || FirstHitAnswered(w, log, jobId, BlockRejected)
  {
    Scanned(w, log, jobId, verdict, n);
    hide WalkedBack;
    var id := jobId - n + 1;
    if Hit(w, log, jobId, id) {
      assert FirstHit(w, log, jobId, id);
      forall d | FirstHit(w, log, jobId, d) ensures d == id {}
    } else {
      forall d ensures !Hit(w, log, jobId, d) {}
    }
  }

  /** The last candidate is the only one that can be a hit; if it is none, it is the oldest. */
  lemma Scanned<Job>(w: World<Job>, log: seq<Job>, jobId: nat, verdict: Verdict, n: nat)
    requires forall k: nat :: w.log(k) == log
    requires WalkedBack(w, jobId, verdict, n)
    requires Oldest(|log|) <= jobId <= |log|
    ensures 1 <= n <= jobId - Oldest(|log|) + 1
    ensures forall d :: jobId - n + 1 < d ==> !Hit(w, log, jobId, d)
    ensures var id := jobId - n + 1;
            if Hit(w, log, jobId, id) then Some(verdict) == Judge(w, log[id - 1], n - 1)
            else verdict == LowDifficulty && id == Oldest(|log|)
  {
    assert forall k: nat :: Candidate(w, jobId, k).Some? <==> k <= jobId - Oldest(|log|);
    assert Candidate(w, jobId, n - 1) == Some(log[jobId - n]);
    forall d | jobId - n + 1 < d
      ensures !Hit(w, log, jobId, d)
    {
      assert d <= jobId ==> Missed(w, jobId, jobId - d);
    }
  }
}
