/** Threads that put messages into one queue: each looks at its size first and pushes later, and
    nothing holds the queue still in between. */
module QueueBound {

  /** How many messages wait, and which threads have found room and have not pushed yet. */
  datatype State = State(size: nat, checked: seq<bool>)

  datatype Step = Check(thread: nat) | Push(thread: nat) | Pop

  /** One step of some thread; a thread that finds the queue full gives up, and steps that are not due do nothing. */
  function Next(s: State, step: Step, limit: int): State {
    match step
    case Check(i) =>
      if i < |s.checked| && !s.checked[i] && s.size <= limit then s.(checked := s.checked[i := true]) else s
    case Push(i) =>
      if i < |s.checked| && s.checked[i] then State(s.size + 1, s.checked[i := false]) else s
    case Pop =>
      if s.size > 0 then s.(size := s.size - 1) else s
  }

  function Steps(s: State, steps: seq<Step>, limit: int): State
    decreases steps
  {
    if steps == [] then s else Steps(Next(s, steps[0], limit), steps[1..], limit)
  }

  function Count(checked: seq<bool>): (n: nat)
    ensures n <= |checked|
  {
    if checked == [] then 0 else (if checked[0] then 1 else 0) + Count(checked[1..])
  }

  lemma {:induction false} CountSet(checked: seq<bool>, i: nat, b: bool)
    requires i < |checked|
    ensures Count(checked[i := b]) == Count(checked) - (if checked[i] then 1 else 0) + if b then 1 else 0
  {
    if i > 0 {
      assert checked[i := b][1..] == checked[1..][i - 1 := b];
      CountSet(checked[1..], i - 1, b);
    } else {
      assert checked[i := b][1..] == checked[1..];
    }
  }

  /** The messages that wait and those about to be pushed are together at most the limit and one for
      each thread. */
  ghost predicate Bounded(s: State, limit: int) {
    s.size + Count(s.checked) <= if limit < 0 then 0 else limit + |s.checked|
  }

  lemma NextBounded(s: State, step: Step, limit: int)
    requires Bounded(s, limit)
    ensures Bounded(Next(s, step, limit), limit) && |Next(s, step, limit).checked| == |s.checked|
  {
    match step
    case Check(i) =>
      if i < |s.checked| {
        CountSet(s.checked, i, true);
      }
    case Push(i) =>
      if i < |s.checked| {
        CountSet(s.checked, i, false);
      }
    case Pop =>
  }

  lemma {:induction false} StepsBounded(s: State, steps: seq<Step>, limit: int)
    requires Bounded(s, limit)
    ensures Bounded(Steps(s, steps, limit), limit) && |Steps(s, steps, limit).checked| == |s.checked|
    decreases steps
  {
    if steps != [] {
      NextBounded(s, steps[0], limit);
      StepsBounded(Next(s, steps[0], limit), steps[1..], limit);
    }
  }

  function Idle(n: nat): seq<bool> {
    seq(n, _ => false)
  }

  lemma {:induction false} CountIdle(n: nat)
    ensures Count(Idle(n)) == 0
  {
    if n > 0 {
      assert Idle(n)[1..] == Idle(n - 1);
      CountIdle(n - 1);
    }
  }

  /** In any interleaving of n threads with any number of poppers the queue never holds more than the
      limit and n, and with a negative limit nothing. */
  lemma NeverExceeds(n: nat, steps: seq<Step>, limit: int)
    ensures Steps(State(0, Idle(n)), steps, limit).size <= if limit < 0 then 0 else limit + n
  {
    CountIdle(n);
    StepsBounded(State(0, Idle(n)), steps, limit);
  }

  // ----- the bound is reached -----

  lemma {:induction false} StepsAppend(s: State, a: seq<Step>, b: seq<Step>, limit: int)
    ensures Steps(s, a + b, limit) == Steps(Steps(s, a, limit), b, limit)
    decreases a
  {
    if a == [] {
      assert a + b == b;
    } else {
      assert (a + b)[1..] == a[1..] + b;
      StepsAppend(Next(s, a[0], limit), a[1..], b, limit);
    }
  }

  /** The first k threads are about to push. */
  function FirstChecked(k: nat, n: nat): (r: seq<bool>)
    requires k <= n
    ensures |r| == n
  {
    seq(n, i => i < k)
  }

  /** One thread fills the queue up to the limit, each time with a push of its own. */
  lemma {:induction false} Fill(n: nat, size: nat, limit: nat) returns (steps: seq<Step>)
    requires 0 < n && size <= limit + 1
    ensures Steps(State(0, Idle(n)), steps, limit) == State(size, Idle(n))
  {
    if size == 0 {
      steps := [];
    } else {
      var before := Fill(n, size - 1, limit);
      var s := State(size - 1, Idle(n));
      var last := [Check(0), Push(0)];
      steps := before + last;
      StepsAppend(State(0, Idle(n)), before, last, limit);
      assert last[1..] == [Push(0)] && last[1..][1..] == [];
      assert Idle(n)[0 := true][0 := false] == Idle(n);
      assert Steps(s, last, limit) == Next(Next(s, last[0], limit), last[1], limit);
    }
  }

  /** All threads look while there is still room. */
  lemma {:induction false} CheckAll(n: nat, k: nat, limit: nat) returns (steps: seq<Step>)
    requires k <= n
    ensures Steps(State(limit, Idle(n)), steps, limit) == State(limit, FirstChecked(k, n))
  {
    if k == 0 {
      steps := [];
      assert FirstChecked(0, n) == Idle(n);
    } else {
      var before := CheckAll(n, k - 1, limit);
      steps := before + [Check(k - 1)];
      StepsAppend(State(limit, Idle(n)), before, [Check(k - 1)], limit);
      assert FirstChecked(k - 1, n)[k - 1 := true] == FirstChecked(k, n);
    }
  }

  lemma {:induction false} PushAll(n: nat, k: nat, limit: nat, size: nat) returns (steps: seq<Step>)
    requires k <= n
    ensures Steps(State(size, FirstChecked(k, n)), steps, limit) == State(size + k, Idle(n))
  {
    if k == 0 {
      steps := [];
      assert FirstChecked(0, n) == Idle(n);
    } else {
      var rest := PushAll(n, k - 1, limit, size + 1);
      steps := [Push(k - 1)] + rest;
      assert FirstChecked(k, n)[k - 1 := false] == FirstChecked(k - 1, n);
      assert steps[1..] == rest;
    }
  }

  /** Some interleaving of n threads puts the limit and n messages into the queue. */
  lemma Reached(n: nat, limit: nat) returns (steps: seq<Step>)
    requires 0 < n
    ensures Steps(State(0, Idle(n)), steps, limit) == State(limit + n, Idle(n))
  {
    var a := Fill(n, limit, limit);
    var b := CheckAll(n, n, limit);
    var c := PushAll(n, n, limit, limit);
    steps := a + (b + c);
    StepsAppend(State(0, Idle(n)), a, b + c, limit);
    StepsAppend(State(limit, Idle(n)), b, c, limit);
  }
}
