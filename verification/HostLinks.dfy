/** The cross-linked maps of GameplayHost (include/realscript/game/GameplayScripting.h) and what
    keeps them consistent, as values. */
module HostLinks {
  import opened Options
  import opened Scalars
  import opened Timers

  /** game::GameplayValue; a double is its bit pattern. */
  datatype GameplayValue =
    | Empty | BoolValue(b: bool) | IntValue(n: int) | LongValue(n: int) | DoubleValue(bits: nat)
    | Text(text: string) | Entity(packed: nat)

  datatype Call = Call(payloadId: nat, timerId: nat, target: nat, callback: string, arguments: seq<GameplayValue>)

  datatype SequenceState = SequenceState(id: nat, timers: seq<nat>)

  /** calls_, timerToPayload_, sequences_ and timerToSequence_. */
  datatype Links = Links(
    calls: map<nat, Call>, timerToPayload: map<nat, nat>,
    sequences: map<nat, SequenceState>, timerToSequence: map<nat, nat>)

  predicate ValidCall(c: Call) {
    c.payloadId != 0 && c.timerId != 0 && c.target != 0 && c.callback != ""
  }

  predicate Distinct(s: seq<nat>) {
    forall i, j | 0 <= i < j < |s| :: s[i] != s[j]
  }

  /** Calls and their timers are in one-to-one correspondence. */
  predicate CallsLinked(l: Links) {
    (forall p | p in l.calls ::
       && l.calls[p].payloadId == p && ValidCall(l.calls[p])
       && l.calls[p].timerId in l.timerToPayload && l.timerToPayload[l.calls[p].timerId] == p) &&
    (forall t | t in l.timerToPayload :: l.timerToPayload[t] in l.calls && l.calls[l.timerToPayload[t]].timerId == t)
  }

  /** The timers of a sequence are, once each, those that lead back to it. */
  ghost predicate Members(timerToSequence: map<nat, nat>, s: SequenceState) {
    Distinct(s.timers) && forall t :: t in s.timers <==> t in timerToSequence && timerToSequence[t] == s.id
  }

  ghost predicate SequenceLinked(l: Links, s: nat)
    requires s in l.sequences
  {
    s != 0 && l.sequences[s].id == s && l.sequences[s].timers != [] && Members(l.timerToSequence, l.sequences[s])
  }

  /** Sequences and their timers are linked both ways; pending is a sequence still under
      construction, NoSequence outside of that. */
  ghost predicate SequencesLinked(l: Links, pending: SequenceState) {
    && pending.id !in l.sequences
    && Members(l.timerToSequence, pending)
    && (forall s :: s in l.sequences ==> SequenceLinked(l, s))
    && (forall t :: t in l.timerToSequence ==> t in l.timerToPayload)
    && (forall t :: t in l.timerToSequence ==> l.timerToSequence[t] == pending.id || l.timerToSequence[t] in l.sequences)
  }

  const NoSequence := SequenceState(0, [])

  ghost predicate Linked(l: Links, pending: SequenceState) {
    CallsLinked(l) && SequencesLinked(l, pending)
  }

  // ----- erasing a call -----

  /** std::remove followed by erase. */
  function Without(timers: seq<nat>, t: nat): seq<nat> {
    if timers == [] then []
    else if timers[0] == t then Without(timers[1..], t) else [timers[0]] + Without(timers[1..], t)
  }

  lemma {:induction false} WithoutHolds(timers: seq<nat>, t: nat)
    ensures forall x :: x in Without(timers, t) <==> x in timers && x != t
    ensures Distinct(timers) ==> Distinct(Without(timers, t))
    ensures t !in timers ==> Without(timers, t) == timers
  {
    if timers != [] {
      WithoutHolds(timers[1..], t);
      assert forall x :: x in timers <==> x == timers[0] || x in timers[1..];
      var rest := Without(timers[1..], t);
      assert forall i :: 0 <= i < |rest| ==> rest[i] in rest;
      if Distinct(timers) { assert timers[0] !in timers[1..]; }
    }
  }

  /** detachTimerFromSequences (GameplayScripting.cpp:103-113). */
  function Detach(l: Links, t: nat): Links {
    if t !in l.timerToSequence then l
    else
      var s := l.timerToSequence[t];
      var l1 := l.(timerToSequence := l.timerToSequence - {t});
      if s !in l.sequences then l1
      else
        var timers := Without(l.sequences[s].timers, t);
        l1.(sequences := if timers == [] then l.sequences - {s} else l.sequences[s := l.sequences[s].(timers := timers)])
  }

  /** eraseCall, on the maps (GameplayScripting.cpp:87-97). */
  function Erase(l: Links, t: nat): Links {
    if t !in l.timerToPayload then l
    else
      Detach(l.(timerToPayload := l.timerToPayload - {t}, calls := l.calls - {l.timerToPayload[t]}), t)
  }

  function PendingWithout(pending: SequenceState, t: nat): SequenceState {
    pending.(timers := Without(pending.timers, t))
  }

  lemma EraseKeepsCalls(l: Links, t: nat)
    requires CallsLinked(l)
    ensures CallsLinked(Erase(l, t))
    ensures Erase(l, t).timerToPayload == l.timerToPayload - {t}
    ensures t in l.timerToPayload ==> Erase(l, t).calls == l.calls - {l.timerToPayload[t]}
    ensures t !in l.timerToPayload ==> Erase(l, t) == l
  {
    if t !in l.timerToPayload { assert l.timerToPayload - {t} == l.timerToPayload; }
  }

  lemma MembersWithout(timerToSequence: map<nat, nat>, s: SequenceState, t: nat)
    requires Members(timerToSequence, s)
    ensures Members(timerToSequence - {t}, PendingWithout(s, t))
    ensures t !in timerToSequence || timerToSequence[t] != s.id ==> PendingWithout(s, t) == s
  {
    WithoutHolds(s.timers, t);
  }

  lemma EraseKeepsSequences(l: Links, pending: SequenceState, t: nat)
    requires CallsLinked(l) && SequencesLinked(l, pending)
    ensures SequencesLinked(Erase(l, t), PendingWithout(pending, t))
    ensures Erase(l, t).timerToSequence == l.timerToSequence - {t}
  {
    hide Without, Members, CallsLinked;
    var e := Erase(l, t);
    assert e.timerToSequence == l.timerToSequence - {t};
    MembersWithout(l.timerToSequence, pending, t);
    forall s | s in e.sequences ensures SequenceLinked(e, s) {
      assert SequenceLinked(l, s);
      MembersWithout(l.timerToSequence, l.sequences[s], t);
    }
    forall u | u in e.timerToSequence
      ensures u in e.timerToPayload && (e.timerToSequence[u] == pending.id || e.timerToSequence[u] in e.sequences)
    {
      if l.timerToSequence[u] != pending.id {
        var s := l.timerToSequence[u];
        assert SequenceLinked(l, s);
        StillHasMember(l.timerToSequence, l.sequences[s], t, u);
      }
    }
  }

  lemma StillHasMember(timerToSequence: map<nat, nat>, s: SequenceState, t: nat, u: nat)
    requires Members(timerToSequence, s) && u in timerToSequence && timerToSequence[u] == s.id && u != t
    ensures Without(s.timers, t) != []
  {
    WithoutHolds(s.timers, t);
    assert u in Without(s.timers, t);
  }

  lemma EraseKeepsLinked(l: Links, pending: SequenceState, t: nat)
    requires Linked(l, pending)
    ensures Linked(Erase(l, t), PendingWithout(pending, t))
    ensures Erase(l, t).timerToPayload == l.timerToPayload - {t}
    ensures Erase(l, t).timerToSequence == l.timerToSequence - {t}
    ensures t in l.timerToPayload ==> Erase(l, t).calls == l.calls - {l.timerToPayload[t]}
    ensures t !in l.timerToPayload ==> Erase(l, t) == l
    ensures Erase(l, t).sequences.Keys <= l.sequences.Keys
  {
    EraseKeepsCalls(l, t);
    EraseKeepsSequences(l, pending, t);
  }

  lemma NoPending(t: nat)
    ensures PendingWithout(NoSequence, t) == NoSequence
  {
  }

  /** Erasing one timer after the other. */
  function EraseEach(l: Links, timers: seq<nat>): Links {
    if timers == [] then l else Erase(EraseEach(l, timers[..|timers| - 1]), timers[|timers| - 1])
  }

  function RemoveAll<T>(m: map<nat, T>, keys: seq<nat>): map<nat, T> {
    map k | k in m && k !in keys :: m[k]
  }

  lemma RemoveNone<T>(m: map<nat, T>)
    ensures RemoveAll(m, []) == m
  {
  }

  lemma RemoveOneMore<T>(m: map<nat, T>, keys: seq<nat>)
    requires keys != []
    ensures RemoveAll(m, keys) == RemoveAll(m, keys[..|keys| - 1]) - {keys[|keys| - 1]}
  {
    var n := |keys| - 1;
    assert keys == keys[..n] + [keys[n]];
  }

  lemma {:induction false} EraseEachKeepsLinked(l: Links, timers: seq<nat>)
    requires Linked(l, NoSequence)
    ensures var e := EraseEach(l, timers);
            && Linked(e, NoSequence)
            && e.timerToPayload == RemoveAll(l.timerToPayload, timers)
            && e.timerToSequence == RemoveAll(l.timerToSequence, timers)
            && e.calls.Keys <= l.calls.Keys && e.sequences.Keys <= l.sequences.Keys
            && (forall p :: p in e.calls ==> e.calls[p] == l.calls[p])
  {
    hide Linked, Erase, RemoveAll;
    if timers == [] {
      RemoveNone(l.timerToPayload);
      RemoveNone(l.timerToSequence);
    } else {
      var n := |timers| - 1;
      EraseEachKeepsLinked(l, timers[..n]);
      EraseKeepsLinked(EraseEach(l, timers[..n]), NoSequence, timers[n]);
      NoPending(timers[n]);
      RemoveOneMore(l.timerToPayload, timers);
      RemoveOneMore(l.timerToSequence, timers);
    }
  }

  lemma SequenceHasTimer(l: Links, s: nat)
    requires Linked(l, NoSequence)
    ensures s in l.sequences ==> exists t :: t in l.timerToSequence && l.timerToSequence[t] == s && t in l.sequences[s].timers
    ensures s in l.sequences ==> forall t :: t in l.timerToSequence && l.timerToSequence[t] == s ==> t in l.sequences[s].timers
  {
    if s in l.sequences {
      assert SequenceLinked(l, s);
      assert l.sequences[s].timers[0] in l.sequences[s].timers;
    }
  }

  /** A sequence whose timers are all erased is gone. */
  lemma NoTimersNoSequence(l: Links, s: nat)
    requires Linked(l, NoSequence) && s in l.sequences
    ensures s !in EraseEach(l, l.sequences[s].timers).sequences
  {
    hide Linked, EraseEach;
    EraseEachKeepsLinked(l, l.sequences[s].timers);
    SequenceHasTimer(l, s);
    SequenceHasTimer(EraseEach(l, l.sequences[s].timers), s);
  }

  // ----- adding -----

  function AddCall(l: Links, c: Call): Links {
    l.(calls := l.calls[c.payloadId := c], timerToPayload := l.timerToPayload[c.timerId := c.payloadId])
  }

  lemma AddCallKeepsLinked(l: Links, pending: SequenceState, c: Call)
    requires Linked(l, pending) && ValidCall(c) && c.payloadId !in l.calls && c.timerId !in l.timerToPayload
    ensures Linked(AddCall(l, c), pending)
  {
    forall s | s in l.sequences ensures SequenceLinked(AddCall(l, c), s) {
      assert SequenceLinked(l, s);
    }
  }

  function AddTimer(l: Links, s: nat, t: nat): Links {
    l.(timerToSequence := l.timerToSequence[t := s])
  }

  lemma AddTimerKeepsLinked(l: Links, pending: SequenceState, t: nat)
    requires Linked(l, pending) && pending.id != 0 && t in l.timerToPayload && t !in l.timerToSequence
    ensures Linked(AddTimer(l, pending.id, t), pending.(timers := pending.timers + [t]))
  {
    var e, p := AddTimer(l, pending.id, t), pending.(timers := pending.timers + [t]);
    assert forall x :: x in p.timers <==> x in pending.timers || x == t;
    forall s | s in l.sequences ensures SequenceLinked(e, s) {
      assert SequenceLinked(l, s);
    }
  }

  /** Starting a sequence, and closing it when it has timers. */
  lemma OpenSequence(l: Links, id: nat)
    requires Linked(l, NoSequence) && id != 0 && id !in l.sequences
    ensures Linked(l, SequenceState(id, []))
  {
    forall t | t in l.timerToSequence ensures l.timerToSequence[t] != 0 && l.timerToSequence[t] != id {
      assert l.timerToSequence[t] == 0 ==> t in NoSequence.timers;
    }
  }

  lemma CloseSequence(l: Links, pending: SequenceState)
    requires Linked(l, pending) && pending.id != 0 && pending.timers != []
    ensures Linked(l.(sequences := l.sequences[pending.id := pending]), NoSequence)
  {
    var e := l.(sequences := l.sequences[pending.id := pending]);
    forall s | s in e.sequences ensures SequenceLinked(e, s) {
      if s != pending.id { assert SequenceLinked(l, s); }
    }
    forall t | t in l.timerToSequence ensures l.timerToSequence[t] != 0 {
      if l.timerToSequence[t] != pending.id { assert SequenceLinked(l, l.timerToSequence[t]); }
    }
    assert 0 in e.sequences ==> SequenceLinked(e, 0);
  }

  lemma AbandonSequence(l: Links, id: nat)
    requires Linked(l, SequenceState(id, [])) && id != 0
    ensures Linked(l, NoSequence)
  {
    assert 0 in l.sequences ==> SequenceLinked(l, 0);
    forall t | t in l.timerToSequence ensures l.timerToSequence[t] != id && l.timerToSequence[t] != 0 {
      if l.timerToSequence[t] != id { assert SequenceLinked(l, l.timerToSequence[t]); }
    }
  }

  // ----- timers and the scheduler -----

  /** Every scheduled task is some call's timer and carries that call's payload. */
  ghost predicate Owned(tasks: Tasks, l: Links) {
    forall t :: t in tasks ==> t in l.timerToPayload && tasks[t].payload == l.timerToPayload[t]
  }

  /** Every call still has its task. */
  ghost predicate Attached(tasks: Tasks, l: Links) {
    forall t :: t in l.timerToPayload ==> t in tasks && tasks[t].payload == l.timerToPayload[t]
  }

  /** The run reported the last firing of the task. */
  ghost predicate Ended(fired: seq<FiredTask>, id: nat) {
    exists i :: 0 <= i < |fired| && fired[i].id == id && !fired[i].repeats
  }

  /** The run fires a repeating task whose next due tick would lie beyond the last tick: the branch
      of runDue that drops the task (GameplayPrimitives.cpp:348-352). */
  ghost predicate FiresOverflowing(tasks: Tasks, tick: nat, budget: nat)
    requires TasksOk(tasks)
    decreases budget
  {
    budget > 0 && SomeDue(tasks, tick) &&
    var id := NextDue(tasks, tick);
    FireOneOk(tasks, id);
    (Repeats(tasks[id]) && Next(tasks[id]).None?) || FiresOverflowing(FireOne(tasks, id), tick, budget - 1)
  }

  ghost predicate Lost(before: Tasks, r: Firing, id: nat) {
    id in before && id !in r.tasks && !Ended(r.fired, id)
  }

  lemma EndedPrepends(f: FiredTask, fired: seq<FiredTask>, id: nat)
    ensures Ended([f] + fired, id) <==> (f.id == id && !f.repeats) || Ended(fired, id)
  {
    var all := [f] + fired;
    if f.id == id && !f.repeats { assert all[0] == f; }
    if Ended(fired, id) {
      var i :| 0 <= i < |fired| && fired[i].id == id && !fired[i].repeats;
      assert all[i + 1] == fired[i];
    }
    if Ended(all, id) {
      var i :| 0 <= i < |all| && all[i].id == id && !all[i].repeats;
      if i > 0 { assert fired[i - 1] == all[i]; }
    }
  }

  ghost predicate RunReports(before: Tasks, r: Firing) {
    && (forall i :: 0 <= i < |r.fired| ==> r.fired[i].id in before && r.fired[i].payload == before[r.fired[i].id].payload)
    && (forall id :: id in r.tasks ==> id in before && r.tasks[id].payload == before[id].payload && !Ended(r.fired, id))
    && (forall i, k :: 0 <= i < k < |r.fired| && !r.fired[i].repeats ==> r.fired[k].id != r.fired[i].id)
  }

  /** What a run reports fits the tasks it started from, and it loses a task without reporting a
      last firing exactly when it takes the overflow branch. */
  lemma {:induction false} RunIsReported(tasks: Tasks, tick: nat, budget: nat)
    requires TasksOk(tasks)
    ensures RunReports(tasks, RunDue(tasks, tick, budget))
    ensures (exists id :: Lost(tasks, RunDue(tasks, tick, budget), id)) <==> FiresOverflowing(tasks, tick, budget)
    decreases budget
  {
    hide SomeDue, RunDue, IsNextDue, RunReports, Lost, FireOne, TasksOk;
    if budget > 0 && SomeDue(tasks, tick) {
      var id := NextDue(tasks, tick);
      NextDueHolds(tasks, tick, id);
      FireOneOk(tasks, id);
      RunIsReported(FireOne(tasks, id), tick, budget - 1);
      var rest := RunDue(FireOne(tasks, id), tick, budget - 1);
      RunDueUnrolls(tasks, tick, budget);
      OneMoreReport(tasks, id, rest);
      LostLaterOrNow(tasks, id, rest);
    } else {
      RunDueStops(tasks, tick, budget);
      NothingReported(tasks);
    }
  }

  lemma NothingReported(tasks: Tasks)
    ensures RunReports(tasks, Firing([], tasks)) && forall id :: !Lost(tasks, Firing([], tasks), id)
  {
  }

  lemma OneMoreReport(tasks: Tasks, id: nat, rest: Firing)
    requires TasksOk(tasks) && id in tasks && RunReports(FireOne(tasks, id), rest)
    ensures RunReports(tasks, Firing([Fire(tasks[id])] + rest.fired, rest.tasks))
  {
    hide Ended;
    var f := Fire(tasks[id]);
    var all := [f] + rest.fired;
    assert forall i :: 0 < i < |all| ==> all[i] == rest.fired[i - 1];
    forall x ensures Ended(all, x) <==> (f.id == x && !f.repeats) || Ended(rest.fired, x) {
      EndedPrepends(f, rest.fired, x);
    }
  }

  lemma LostLaterOrNow(tasks: Tasks, id: nat, rest: Firing)
    requires TasksOk(tasks) && id in tasks && RunReports(FireOne(tasks, id), rest)
    ensures (exists x :: Lost(tasks, Firing([Fire(tasks[id])] + rest.fired, rest.tasks), x)) <==>
            (Repeats(tasks[id]) && Next(tasks[id]).None?) || exists x :: Lost(FireOne(tasks, id), rest, x)
  {
    var f := Fire(tasks[id]);
    var r := Firing([f] + rest.fired, rest.tasks);
    forall x ensures Ended(r.fired, x) <==> (f.id == x && !f.repeats) || Ended(rest.fired, x) {
      EndedPrepends(f, rest.fired, x);
    }
    if Repeats(tasks[id]) && Next(tasks[id]).None? {
      assert Lost(tasks, r, id);
    } else {
      forall x ensures Lost(tasks, r, x) <==> Lost(FireOne(tasks, id), rest, x) {
      }
    }
  }

  /** No task is lost when no interval reaches past the last tick from here. */
  lemma {:induction false} RoomMeansNoOverflow(tasks: Tasks, tick: nat, budget: nat)
    requires TasksOk(tasks) && forall id :: id in tasks && Repeats(tasks[id]) ==> tick + tasks[id].intervalTicks <= MAX_TICK
    ensures !FiresOverflowing(tasks, tick, budget)
    decreases budget
  {
    if budget > 0 && SomeDue(tasks, tick) {
      var id := NextDue(tasks, tick);
      FireOneOk(tasks, id);
      RoomMeansNoOverflow(FireOne(tasks, id), tick, budget - 1);
    }
  }
}
