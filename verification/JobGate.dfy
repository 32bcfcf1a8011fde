/**
  The admission gate of the batch runner: a semaphore in front of the kernel's ledger.

  Acquiring and releasing take two atomic steps each, one on the permits and one on
  the ledger, and other batches may step in between.
*/
module JobGate {
  import opened Wrappers

  type Principal = string
  type Ledger = map<Principal, nat>

  datatype SchedulerError = QuotaExhausted(principal: Principal, quota: nat)

  function Inflight(ledger: Ledger, p: Principal): nat {
    if p in ledger then ledger[p] else 0
  }

  function Reserved(ledger: Ledger, p: Principal): Ledger {
    ledger[p := Inflight(ledger, p) + 1]
  }

  function Released(ledger: Ledger, p: Principal): Ledger {
    if Inflight(ledger, p) <= 1 then ledger - {p} else ledger[p := Inflight(ledger, p) - 1]
  }

  /** The kernel's per-principal accounting. */
  class Scheduler {
    const quota: nat
    var inflight: Ledger

    constructor (quota: nat)
      requires quota > 0
      ensures this.quota == quota && inflight == map[]
    {
      this.quota, inflight := quota, map[];
    }

    method Acquire(p: Principal) returns (r: Result<(), SchedulerError>)
      modifies this
      ensures r.Ok? <==> Inflight(old(inflight), p) < quota
      ensures inflight == if r.Ok? then Reserved(old(inflight), p) else old(inflight)
      ensures r.Ok? ==> Inflight(inflight, p) <= quota
    {
      var current := if p in inflight then inflight[p] else 0;
      if current >= quota { return Err(QuotaExhausted(p, quota)); }
      inflight := inflight[p := current + 1];
      return Ok(());
    }

    // Releasing an empty counter changes nothing that can be observed.
    method Release(p: Principal)
      modifies this
      ensures inflight == Released(old(inflight), p)
      ensures Inflight(inflight, p) == if Inflight(old(inflight), p) == 0 then 0 else Inflight(old(inflight), p) - 1
      ensures forall q :: q != p ==> Inflight(inflight, q) == Inflight(old(inflight), q)
    {
      var current := if p in inflight then inflight[p] else 0;
      if current <= 1 {
        inflight := inflight - {p};
      } else {
        inflight := inflight[p := current - 1];
      }
    }
  }

  // ---- The protocol: semaphore then ledger on the way in, ledger then semaphore on the way out ----

  datatype Holder =
    | Waiting    // on the semaphore
    | Permitted  // has a semaphore permit, not in the ledger yet
    | Running    // holds the job permit
    | Leaving    // out of the ledger, semaphore permit not returned yet
    | Gone
    | Panicked   // the ledger refused although the semaphore admitted

  datatype Gate = Gate(permits: nat, ledger: Ledger, holders: seq<Holder>)

  datatype GateStep =
    | TakePermit(i: nat)
    | Enter(i: nat)
    | Leave(i: nat)
    | ReturnPermit(i: nat)
    | OtherAcquires(p: Principal)
    | OtherReleases(p: Principal)

  datatype Config = Config(me: Principal, quota: nat, ledgerQuota: nat)

  predicate Enabled(c: Config, g: Gate, s: GateStep) {
    match s
    case TakePermit(i) => i < |g.holders| && g.holders[i] == Waiting && g.permits > 0
    case Enter(i) => i < |g.holders| && g.holders[i] == Permitted
    case Leave(i) => i < |g.holders| && g.holders[i] == Running
    case ReturnPermit(i) => i < |g.holders| && g.holders[i] == Leaving
    case OtherAcquires(p) => p != c.me && Inflight(g.ledger, p) < c.ledgerQuota
    case OtherReleases(p) => p != c.me
  }

  function Step(c: Config, g: Gate, s: GateStep): Gate {
    if !Enabled(c, g, s) then g
    else
      match s
      case TakePermit(i) => g.(permits := g.permits - 1, holders := g.holders[i := Permitted])
      case Enter(i) =>
        if Inflight(g.ledger, c.me) >= c.ledgerQuota
        then g.(permits := g.permits + 1, holders := g.holders[i := Panicked])
        else g.(ledger := Reserved(g.ledger, c.me), holders := g.holders[i := Running])
      case Leave(i) => g.(ledger := Released(g.ledger, c.me), holders := g.holders[i := Leaving])
      case ReturnPermit(i) => g.(permits := g.permits + 1, holders := g.holders[i := Gone])
      case OtherAcquires(p) => g.(ledger := Reserved(g.ledger, p))
      case OtherReleases(p) => g.(ledger := Released(g.ledger, p))
  }

  function Run(c: Config, g: Gate, steps: seq<GateStep>): Gate
    decreases steps
  {
    if steps == [] then g else Run(c, Step(c, g, steps[0]), steps[1..])
  }

  function Many(n: nat, h: Holder): seq<Holder> {
    seq(n, _ => h)
  }

  // n batches in front of a gate nobody has passed yet.
  function Opened(c: Config, n: nat): Gate {
    Gate(c.quota, map[], Many(n, Waiting))
  }

  ghost function Count(g: Gate, h: Holder): nat {
    multiset(g.holders)[h]
  }

  ghost function PermitsOut(g: Gate): nat {
    Count(g, Permitted) + Count(g, Running) + Count(g, Leaving)
  }

  ghost predicate Balanced(c: Config, g: Gate) {
    g.permits + PermitsOut(g) == c.quota && Inflight(g.ledger, c.me) == Count(g, Running)
  }

  lemma CountsAfter(g: Gate, i: nat, to: Holder, g': Gate)
    requires i < |g.holders| && g'.holders == g.holders[i := to]
    ensures forall h :: Count(g', h) == Count(g, h) - (if g.holders[i] == h then 1 else 0) + (if to == h then 1 else 0)
  {
    assert multiset(g'.holders) == multiset(g.holders) - multiset{g.holders[i]} + multiset{to};
    assert g.holders[i] in multiset(g.holders);
  }

  // The permits a holder has, and its entries in the ledger.
  function PermitsOf(h: Holder): int {
    if h.Permitted? || h.Running? || h.Leaving? then 1 else 0
  }

  function EntriesOf(h: Holder): int {
    if h.Running? then 1 else 0
  }

  lemma MoveKeepsBalance(c: Config, g: Gate, i: nat, g': Gate)
    requires Balanced(c, g) && i < |g.holders| && |g'.holders| == |g.holders| &&
             g'.holders == g.holders[i := g'.holders[i]]
    requires var h, h' := g.holders[i], g'.holders[i];
             g'.permits - g.permits == PermitsOf(h) - PermitsOf(h') &&
             Inflight(g'.ledger, c.me) - Inflight(g.ledger, c.me) == EntriesOf(h') - EntriesOf(h)
    ensures Balanced(c, g')
  {
    CountsAfter(g, i, g'.holders[i], g');
  }

  lemma StepKeepsBalance(c: Config, g: Gate, s: GateStep)
    requires Balanced(c, g)
    ensures Balanced(c, Step(c, g, s))
    ensures |Step(c, g, s).holders| == |g.holders|
  {
    if Enabled(c, g, s) {
      if s.OtherAcquires? || s.OtherReleases? {
        assert Inflight(Step(c, g, s).ledger, c.me) == Inflight(g.ledger, c.me);
      } else {
        RunningIsCounted(g, s.i);
        MoveKeepsBalance(c, g, s.i, Step(c, g, s));
      }
    }
  }

  lemma RunningIsCounted(g: Gate, i: nat)
    requires i < |g.holders|
    ensures Count(g, g.holders[i]) > 0
  {
    assert g.holders[i] in multiset(g.holders);
  }

  lemma {:induction false} CountAtMostLength<T>(s: seq<T>, x: T, y: T, z: T)
    requires x != y && y != z && x != z
    ensures multiset(s)[x] + multiset(s)[y] + multiset(s)[z] <= |s|
  {
    if s != [] {
      var n := |s| - 1;
      assert s == s[..n] + [s[n]];
      CountAtMostLength(s[..n], x, y, z);
    }
  }

  lemma EnterAdmittedBelow(c: Config, g: Gate, i: nat)
    requires Balanced(c, g) && Enabled(c, g, Enter(i))
    requires c.quota <= c.ledgerQuota || |g.holders| <= c.ledgerQuota
    ensures Inflight(g.ledger, c.me) < c.ledgerQuota
  {
    assert g.holders[i] in multiset(g.holders);
    CountAtMostLength(g.holders, Permitted, Running, Leaving);
  }

  lemma {:induction false} RunIsSafe(c: Config, g: Gate, steps: seq<GateStep>)
    requires Balanced(c, g)
    ensures Balanced(c, Run(c, g, steps))
    ensures (c.quota <= c.ledgerQuota || |g.holders| <= c.ledgerQuota) && Panicked !in g.holders ==>
              Panicked !in Run(c, g, steps).holders
    decreases steps
  {
    if steps != [] {
      StepKeepsBalance(c, g, steps[0]);
      if (c.quota <= c.ledgerQuota || |g.holders| <= c.ledgerQuota) && steps[0].Enter? && Enabled(c, g, steps[0]) {
        EnterAdmittedBelow(c, g, steps[0].i);
      }
      RunIsSafe(c, Step(c, g, steps[0]), steps[1..]);
    }
  }

  lemma OpenedIsBalanced(c: Config, n: nat)
    ensures Balanced(c, Opened(c, n)) && Panicked !in Opened(c, n).holders
  {
    forall h | h in multiset(Many(n, Waiting)) ensures h == Waiting {
      assert h in Many(n, Waiting);
    }
  }

  /**
    Gate safety.  In every interleaving the ledger never shows more than the permits
    out, which never exceed the quota; when no batch is between its four steps the
    ledger is back to zero and every permit is back.
  */
  lemma GateIsSafe(c: Config, n: nat, steps: seq<GateStep>)
    ensures var g := Run(c, Opened(c, n), steps);
            Inflight(g.ledger, c.me) <= PermitsOut(g) <= c.quota &&
            ((forall h :: h in g.holders ==> h == Waiting || h == Gone || h == Panicked) ==>
              Inflight(g.ledger, c.me) == 0 && g.permits == c.quota)
  {
    OpenedIsBalanced(c, n);
    RunIsSafe(c, Opened(c, n), steps);
    var g := Run(c, Opened(c, n), steps);
    if forall h :: h in g.holders ==> h == Waiting || h == Gone || h == Panicked {
      forall h | h == Permitted || h == Running || h == Leaving ensures Count(g, h) == 0 {
        assert h !in g.holders;
      }
    }
  }

  // The first k of n batches inside, the others waiting.
  function Inside(n: nat, k: nat): seq<Holder> {
    seq(n, i => if i < k then Running else Waiting)
  }

  function March(k: nat): seq<GateStep> {
    if k == 0 then [] else March(k - 1) + [TakePermit(k - 1), Enter(k - 1)]
  }

  lemma {:induction false} RunAppend(c: Config, g: Gate, a: seq<GateStep>, b: seq<GateStep>)
    ensures Run(c, g, a + b) == Run(c, Run(c, g, a), b)
    decreases a
  {
    if a == [] {
      assert a + b == b;
    } else {
      assert (a + b)[1..] == a[1..] + b;
      RunAppend(c, Step(c, g, a[0]), a[1..], b);
    }
  }

  lemma RunTwo(c: Config, g: Gate, s: GateStep, t: GateStep)
    ensures Run(c, g, [s, t]) == Step(c, Step(c, g, s), t)
  {
    assert [s, t][1..] == [t];
    assert [t][1..] == [];
    assert Run(c, Step(c, g, s), [t]) == Run(c, Step(c, Step(c, g, s), t), []);
  }

  lemma {:induction false} Marching(c: Config, n: nat, k: nat)
    requires k <= n && k <= c.quota && k <= c.ledgerQuota
    ensures var g := Run(c, Opened(c, n), March(k));
            g.permits == c.quota - k && g.holders == Inside(n, k) && Inflight(g.ledger, c.me) == k
  {
    if k == 0 {
      assert Many(n, Waiting) == Inside(n, 0);
    } else {
      Marching(c, n, k - 1);
      var g := Run(c, Opened(c, n), March(k - 1));
      RunAppend(c, Opened(c, n), March(k - 1), [TakePermit(k - 1), Enter(k - 1)]);
      RunTwo(c, g, TakePermit(k - 1), Enter(k - 1));
      assert Inside(n, k - 1)[k - 1 := Permitted][k - 1 := Running] == Inside(n, k);
    }
  }

  /**
    The ledger's refusal is unreachable exactly when its quota covers every batch
    the semaphore can let in at once.
  */
  lemma NeverPanicsIff(c: Config, n: nat)
    ensures (forall steps :: Panicked !in Run(c, Opened(c, n), steps).holders) <==>
            (c.quota <= c.ledgerQuota || n <= c.ledgerQuota)
  {
    OpenedIsBalanced(c, n);
    if c.quota <= c.ledgerQuota || n <= c.ledgerQuota {
      forall steps ensures Panicked !in Run(c, Opened(c, n), steps).holders {
        RunIsSafe(c, Opened(c, n), steps);
      }
    } else {
      var k := c.ledgerQuota;
      Marching(c, n, k);
      RunAppend(c, Opened(c, n), March(k), [TakePermit(k), Enter(k)]);
      RunTwo(c, Run(c, Opened(c, n), March(k)), TakePermit(k), Enter(k));
      var g := Run(c, Opened(c, n), March(k) + [TakePermit(k), Enter(k)]);
      assert g.holders[k] == Panicked;
    }
  }

  /** The gate never deadlocks: while a batch has not left, some batch can take a step. */
  lemma SomeoneCanMove(c: Config, n: nat, steps: seq<GateStep>, i: nat)
    requires c.quota > 0
    requires var g := Run(c, Opened(c, n), steps); i < |g.holders| && g.holders[i] != Gone && g.holders[i] != Panicked
    ensures var g := Run(c, Opened(c, n), steps);
            exists s :: Enabled(c, g, s) && !s.OtherAcquires? && !s.OtherReleases?
  {
    OpenedIsBalanced(c, n);
    RunIsSafe(c, Opened(c, n), steps);
    var g := Run(c, Opened(c, n), steps);
    match g.holders[i] {
      case Permitted => assert Enabled(c, g, Enter(i));
      case Running => assert Enabled(c, g, Leave(i));
      case Leaving => assert Enabled(c, g, ReturnPermit(i));
      case Waiting =>
        if g.permits > 0 {
          assert Enabled(c, g, TakePermit(i));
        } else {
          var h :| h in multiset(g.holders) && (h == Permitted || h == Running || h == Leaving);
          var k :| 0 <= k < |g.holders| && g.holders[k] == h;
          assert Enabled(c, g, Enter(k)) || Enabled(c, g, Leave(k)) || Enabled(c, g, ReturnPermit(k));
        }
    }
  }
}
