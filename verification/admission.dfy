/** Serial admission (src/orchestration/worker.py, src/orchestration/models.py):
    docling-serve checks its queue limit and then pushes, two separate steps, so
    concurrent submits can overshoot the limit. */
module Admission {

  datatype WorkerConfig = WorkerConfig(taskQueue: string, maxConcurrentActivities: nat)

  const TASK_QUEUE := "docling"

  const SUBMIT_TASK_QUEUE := "docling-submit"

  /** The process's two workers. */
  function BuildWorkers(maxConcurrentActivities: nat): (WorkerConfig, WorkerConfig) {
    (WorkerConfig(TASK_QUEUE, maxConcurrentActivities), WorkerConfig(SUBMIT_TASK_QUEUE, 1))
  }

  /** Submit slots of `replicas` worker processes: the limit holds per process. */
  function SubmitSlots(replicas: nat, maxConcurrentActivities: nat): nat {
    replicas * BuildWorkers(maxConcurrentActivities).1.maxConcurrentActivities
  }

  /** A submit slot is free, or carries a POST that passed docling's limit check and has
      not been pushed yet. */
  datatype Slot = Idle | Passed

  /** `abandoned`: POSTs past the check whose slot was freed before they finished. */
  datatype Docling = Docling(queued: nat, slots: seq<Slot>, abandoned: nat)

  datatype Action =
    | Check(slot: nat)    // a POST's limit check: passes, or is answered 429
    | Push(slot: nat)     // a POST past its check is queued and answered
    | Pop                 // the dispatcher takes a task from the queue
    | Abandon(slot: nat)  // the slot is freed while its POST goes on in docling
    | Land                // an abandoned POST is queued

  function Act(limit: nat, s: Docling, a: Action): Docling {
    match a
    case Check(i) =>
      if i < |s.slots| && s.slots[i] == Idle && s.queued < limit then s.(slots := s.slots[i := Passed]) else s
    case Push(i) =>
      if i < |s.slots| && s.slots[i] == Passed then s.(queued := s.queued + 1, slots := s.slots[i := Idle]) else s
    case Pop => if s.queued > 0 then s.(queued := s.queued - 1) else s
    case Abandon(i) =>
      if i < |s.slots| && s.slots[i] == Passed then s.(slots := s.slots[i := Idle], abandoned := s.abandoned + 1)
      else s
    case Land => if s.abandoned > 0 then s.(queued := s.queued + 1, abandoned := s.abandoned - 1) else s
  }

  function Exec(limit: nat, s: Docling, acts: seq<Action>): Docling
    decreases |acts|
  {
    if acts == [] then s else Exec(limit, Act(limit, s, acts[0]), acts[1..])
  }

  /** An empty queue and `n` free submit slots. */
  function Empty(n: nat): Docling {
    Docling(0, seq(n, _ => Idle), 0)
  }

  function InFlight(slots: seq<Slot>): nat {
    if slots == [] then 0 else (if slots[0] == Passed then 1 else 0) + InFlight(slots[1..])
  }

  lemma {:induction false} InFlightUpdate(slots: seq<Slot>, i: nat, x: Slot)
    requires i < |slots|
    ensures InFlight(slots[i := x]) ==
            InFlight(slots) - (if slots[i] == Passed then 1 else 0) + (if x == Passed then 1 else 0)
    decreases i
  {
    if i > 0 {
      assert slots[i := x][1..] == slots[1..][i - 1 := x];
      InFlightUpdate(slots[1..], i - 1, x);
    } else {
      assert slots[i := x][1..] == slots[1..];
    }
  }

  lemma {:induction false} InFlightBounds(slots: seq<Slot>)
    ensures InFlight(slots) <= |slots|
    ensures (forall i | 0 <= i < |slots| :: slots[i] == Idle) ==> InFlight(slots) == 0
  {
    if slots != [] {
      InFlightBounds(slots[1..]);
    }
  }

  /** How often a slot is freed before its POST is done. */
  function Abandons(acts: seq<Action>): nat {
    if acts == [] then 0 else Abandons(acts[..|acts| - 1]) + (if acts[|acts| - 1].Abandon? then 1 else 0)
  }

  lemma {:induction false} AbandonsConcat(a: seq<Action>, b: seq<Action>)
    ensures Abandons(a + b) == Abandons(a) + Abandons(b)
    decreases |b|
  {
    if b == [] {
      assert a + b == a;
    } else {
      assert (a + b)[..|a + b| - 1] == a + b[..|b| - 1];
      AbandonsConcat(a, b[..|b| - 1]);
    }
  }

  /** After `m` abandoned POSTs: the queue, the POSTs in a slot past their check and the
      abandoned ones together never exceed limit + slots - 1 + m. */
  ghost predicate Inv(limit: nat, n: nat, m: nat, s: Docling) {
    |s.slots| == n && s.abandoned <= m && s.queued + InFlight(s.slots) + s.abandoned <= limit + n - 1 + m
  }

  lemma ActInv(limit: nat, n: nat, m: nat, s: Docling, a: Action)
    requires n >= 1 && Inv(limit, n, m, s)
    ensures Inv(limit, n, m + (if a.Abandon? then 1 else 0), Act(limit, s, a))
  {
    match a
    case Check(i) =>
      if i < n {
        InFlightBounds(s.slots[i := Passed]);
      }
    case Push(i) =>
      if i < n {
        InFlightUpdate(s.slots, i, Idle);
      }
    case Abandon(i) =>
      if i < n {
        InFlightUpdate(s.slots, i, Idle);
      }
    case Pop =>
    case Land =>
  }

  lemma {:induction false} ExecInv(limit: nat, n: nat, acts: seq<Action>)
    requires n >= 1
    ensures Inv(limit, n, Abandons(acts), Exec(limit, Empty(n), acts))
    decreases |acts|
  {
    if acts == [] {
      InFlightBounds(Empty(n).slots);
    } else {
      var init, last := acts[..|acts| - 1], acts[|acts| - 1];
      ExecInv(limit, n, init);
      assert acts == init + [last];
      ExecLast(limit, Empty(n), init, last);
      ActInv(limit, n, Abandons(init), Exec(limit, Empty(n), init), last);
    }
  }

  /** Admission bound: with `n` submit slots and `m` of their POSTs abandoned, the queue
      never exceeds limit + n - 1 + m, however checks, pushes and pops interleave. */
  lemma AdmissionBound(limit: nat, n: nat, acts: seq<Action>)
    requires n >= 1
    ensures Exec(limit, Empty(n), acts).queued <= limit + n - 1 + Abandons(acts)
  {
    ExecInv(limit, n, acts);
  }

  lemma {:induction false} ExecConcat(limit: nat, s: Docling, a: seq<Action>, b: seq<Action>)
    ensures Exec(limit, s, a + b) == Exec(limit, Exec(limit, s, a), b)
    decreases |a|
  {
    if a == [] {
      assert a + b == b;
    } else {
      assert (a + b)[1..] == a[1..] + b;
      ExecConcat(limit, Act(limit, s, a[0]), a[1..], b);
    }
  }

  lemma ExecLast(limit: nat, s: Docling, acts: seq<Action>, a: Action)
    ensures Exec(limit, s, acts + [a]) == Act(limit, Exec(limit, s, acts), a)
  {
    ExecConcat(limit, s, acts, [a]);
    var s' := Exec(limit, s, acts);
    assert Exec(limit, s', [a]) == Exec(limit, Act(limit, s', a), [a][1..]);
  }

  /** From `s`, `acts` lead to `s'` and abandon `m` POSTs. */
  ghost predicate Leads(limit: nat, s: Docling, acts: seq<Action>, m: nat, s': Docling) {
    Exec(limit, s, acts) == s' && Abandons(acts) == m
  }

  lemma LeadsOn(limit: nat, s: Docling, a: seq<Action>, m: nat, s1: Docling, b: seq<Action>, m': nat, s2: Docling)
    requires Leads(limit, s, a, m, s1) && Leads(limit, s1, b, m', s2)
    ensures Leads(limit, s, a + b, m + m', s2)
  {
    ExecConcat(limit, s, a, b);
    AbandonsConcat(a, b);
  }

  lemma LeadsOne(limit: nat, s: Docling, a: Action)
    ensures Leads(limit, s, [a], if a.Abandon? then 1 else 0, Act(limit, s, a))
  {
    assert [a][..0] == [] && [a][1..] == [];
    assert Exec(limit, s, [a]) == Exec(limit, Act(limit, s, a), []);
  }

  /** `q` documents admitted one after the other. */
  lemma {:induction false} Fill(limit: nat, n: nat, q: nat) returns (acts: seq<Action>)
    requires n >= 1 && q <= limit
    ensures Leads(limit, Empty(n), acts, 0, Empty(n).(queued := q))
  {
    if q == 0 {
      return [];
    }
    acts := Fill(limit, n, q - 1);
    var s := Empty(n).(queued := q - 1);
    var s1 := Act(limit, s, Check(0));
    LeadsOne(limit, s, Check(0));
    LeadsOne(limit, s1, Push(0));
    assert s.slots[0 := Passed][0 := Idle] == s.slots;
    LeadsOn(limit, s, [Check(0)], 0, s1, [Push(0)], 0, s.(queued := q));
    LeadsOn(limit, Empty(n), acts, 0, s, [Check(0)] + [Push(0)], 0, s.(queued := q));
    acts := acts + ([Check(0)] + [Push(0)]);
  }

  /** `m` POSTs past their check, each abandoned by the one slot that carried it. */
  lemma {:induction false} Leak(limit: nat, s: Docling, m: nat) returns (acts: seq<Action>)
    requires s.queued < limit && s.slots != [] && s.slots[0] == Idle
    ensures Leads(limit, s, acts, m, s.(abandoned := s.abandoned + m))
  {
    if m == 0 {
      return [];
    }
    acts := Leak(limit, s, m - 1);
    var s1 := s.(abandoned := s.abandoned + m - 1);
    var s2 := Act(limit, s1, Check(0));
    LeadsOne(limit, s1, Check(0));
    LeadsOne(limit, s2, Abandon(0));
    assert s.slots[0 := Passed][0 := Idle] == s.slots;
    LeadsOn(limit, s1, [Check(0)], 0, s2, [Abandon(0)], 1, s.(abandoned := s.abandoned + m));
    LeadsOn(limit, s, acts, m - 1, s1, [Check(0)] + [Abandon(0)], 1, s.(abandoned := s.abandoned + m));
    acts := acts + ([Check(0)] + [Abandon(0)]);
  }

  lemma {:induction false} Land(limit: nat, s: Docling, m: nat) returns (acts: seq<Action>)
    requires m <= s.abandoned
    ensures Leads(limit, s, acts, 0, s.(queued := s.queued + m, abandoned := s.abandoned - m))
  {
    if m == 0 {
      return [];
    }
    acts := Land(limit, s, m - 1);
    var s1 := s.(queued := s.queued + m - 1, abandoned := s.abandoned - (m - 1));
    LeadsOne(limit, s1, Action.Land);
    LeadsOn(limit, s, acts, 0, s1, [Action.Land], 0, Act(limit, s1, Action.Land));
    acts := acts + [Action.Land];
  }

  /** `m` of `n` slots as in `x`, the others as in `y`. */
  function Mixed(n: nat, m: nat, x: Slot, y: Slot): seq<Slot> {
    seq(n, i => if i < m then x else y)
  }

  lemma {:induction false} ChecksPass(limit: nat, n: nat, s: Docling, m: nat) returns (acts: seq<Action>)
    requires s.slots == Mixed(n, 0, Passed, Idle) && s.queued < limit && m <= n
    ensures Leads(limit, s, acts, 0, s.(slots := Mixed(n, m, Passed, Idle)))
    decreases m
  {
    if m == 0 {
      return [];
    }
    acts := ChecksPass(limit, n, s, m - 1);
    var s1 := s.(slots := Mixed(n, m - 1, Passed, Idle));
    assert s1.slots[m - 1 := Passed] == Mixed(n, m, Passed, Idle);
    LeadsOne(limit, s1, Check(m - 1));
    LeadsOn(limit, s, acts, 0, s1, [Check(m - 1)], 0, Act(limit, s1, Check(m - 1)));
    acts := acts + [Check(m - 1)];
  }

  lemma {:induction false} PushesLand(limit: nat, n: nat, s: Docling, m: nat) returns (acts: seq<Action>)
    requires s.slots == Mixed(n, 0, Idle, Passed) && m <= n
    ensures Leads(limit, s, acts, 0, s.(queued := s.queued + m, slots := Mixed(n, m, Idle, Passed)))
    decreases m
  {
    if m == 0 {
      return [];
    }
    acts := PushesLand(limit, n, s, m - 1);
    var s1 := s.(queued := s.queued + m - 1, slots := Mixed(n, m - 1, Idle, Passed));
    assert s1.slots[m - 1 := Idle] == Mixed(n, m, Idle, Passed);
    LeadsOne(limit, s1, Push(m - 1));
    LeadsOn(limit, s, acts, 0, s1, [Push(m - 1)], 0, Act(limit, s1, Push(m - 1)));
    acts := acts + [Push(m - 1)];
  }

  /** The bound is attained: at limit - 1, `m` POSTs pass their check and are abandoned,
      then all slots pass it, then everything is queued. */
  lemma AdmissionBoundReached(limit: nat, n: nat, m: nat) returns (acts: seq<Action>)
    requires limit >= 1 && n >= 1
    ensures Abandons(acts) == m && Exec(limit, Empty(n), acts).queued == limit + n - 1 + m
  {
    acts := Fill(limit, n, limit - 1);
    var s := Empty(n).(queued := limit - 1);
    var leak := Leak(limit, s, m);
    var s1 := s.(abandoned := m);
    LeadsOn(limit, Empty(n), acts, 0, s, leak, m, s1);
    assert s1.slots == Mixed(n, 0, Passed, Idle);
    var checks := ChecksPass(limit, n, s1, n);
    var s2 := s1.(slots := Mixed(n, n, Passed, Idle));
    LeadsOn(limit, Empty(n), acts + leak, m, s1, checks, 0, s2);
    assert s2.slots == Mixed(n, 0, Idle, Passed);
    var pushes := PushesLand(limit, n, s2, n);
    var s3 := s2.(queued := limit - 1 + n, slots := Mixed(n, n, Idle, Passed));
    LeadsOn(limit, Empty(n), acts + leak + checks, m, s2, pushes, 0, s3);
    var lands := Land(limit, s3, m);
    var s4 := s3.(queued := s3.queued + m, abandoned := 0);
    LeadsOn(limit, Empty(n), acts + leak + checks + pushes, m, s3, lands, 0, s4);
    acts := acts + leak + checks + pushes + lands;
  }

  /** No run that abandons at most `m` POSTs queues more than `bound`. */
  ghost predicate Admits(limit: nat, n: nat, m: nat, bound: nat) {
    forall acts :: Abandons(acts) <= m ==> Exec(limit, Empty(n), acts).queued <= bound
  }

  /** Admission, exactly: `n` slots of which at most `m` are freed early keep the queue
      within `bound` if and only if limit + n - 1 + m <= bound. */
  lemma AdmissionIsExact(limit: nat, n: nat, m: nat, bound: nat)
    requires limit >= 1 && n >= 1
    ensures Admits(limit, n, m, bound) <==> limit + n - 1 + m <= bound
  {
    forall acts | Abandons(acts) <= m ensures Exec(limit, Empty(n), acts).queued <= limit + n - 1 + m {
      AdmissionBound(limit, n, acts);
    }
    var acts := AdmissionBoundReached(limit, n, m);
    assert Exec(limit, Empty(n), acts).queued == limit + n - 1 + m;
  }

  /** As deployed, the configured limit is kept by one worker process whose slot is never
      freed early, and by nothing else. */
  lemma DeployedAdmission(limit: nat, replicas: nat, maxConcurrentActivities: nat, m: nat)
    requires limit >= 1 && replicas >= 1
    ensures Admits(limit, SubmitSlots(replicas, maxConcurrentActivities), m, limit) <==> replicas == 1 && m == 0
  {
    AdmissionIsExact(limit, replicas, m, limit);
  }

  function Pops(k: nat): seq<Action> {
    if k == 0 then [] else [Pop] + Pops(k - 1)
  }

  /** The dispatcher empties the queue, place by place. */
  lemma {:induction false} PopsDrain(limit: nat, s: Docling, k: nat)
    requires k <= s.queued
    ensures Exec(limit, s, Pops(k)) == s.(queued := s.queued - k)
    decreases k
  {
    if k > 0 {
      assert Pops(k)[1..] == Pops(k - 1);
      PopsDrain(limit, Act(limit, s, Pop), k - 1);
    }
  }

  /** One process: the submit queue's worker runs one activity at a time, the main queue's as
      many as configured. */
  lemma WorkersOfProcess(maxConcurrentActivities: nat)
    ensures var (main, submit) := BuildWorkers(maxConcurrentActivities);
            && main.taskQueue == "docling" && main.maxConcurrentActivities == maxConcurrentActivities
            && submit.taskQueue == "docling-submit" && submit.maxConcurrentActivities == 1
  {}
}
