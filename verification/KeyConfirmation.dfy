/**
 Confirming repository keys: any number of threads wait for the user's answer
 about a key; the user is asked once, and everyone gets the first answer.
 */
module KeyConfirmation {
  type Key = nat

  datatype Status = Pending | Confirmed | Rejected

  datatype Waiter = Waiting(key: Key) | Answered(key: Key, confirmed: bool) | TimedOut(key: Key)

  /** What was asked of the user and what was answered, in order. */
  datatype Event = Request(key: Key) | Reply(key: Key, confirmed: bool)

  datatype State = State(status: map<Key, Status>, waiters: map<nat, Waiter>, signals: seq<Key>, history: seq<Event>)

  // ---------- the session object ----------

  class Session {
    var status: map<Key, Status>
    var signals: seq<Key>

    constructor ()
      ensures status == map[] && signals == []
    {
      status, signals := map[], [];
    }

    /** confirm_key, under the lock */
    method ConfirmKey(key: Key, confirmed: bool)
      modifies this`status
      ensures status == AfterReply(old(status), key, confirmed)
    {
      if key in status {
        if status[key] == Pending {
          status := status[key := if confirmed then Confirmed else Rejected];
        }
      }
    }

    /** wait_for_key_confirmation up to its wait, under the lock */
    method BeginWait(key: Key)
      modifies this
      ensures status == if key in old(status) then old(status) else old(status)[key := Pending]
      ensures signals == if key in old(status) then old(signals) else old(signals) + [key]
    {
      if key !in status {
        status := status[key := Pending];
        signals := signals + [key];
      }
    }
  }

  function AfterReply(status: map<Key, Status>, key: Key, confirmed: bool): map<Key, Status> {
    if key in status && status[key] == Pending then status[key := if confirmed then Confirmed else Rejected] else status
  }

  // ---------- steps in any order ----------

  datatype Step = StartWait(w: nat, key: Key) | Confirm(key: Key, confirmed: bool) | Wake(w: nat) | TimeOut(w: nat)

  /** A waiter wakes when the answer is there, and times out only while it is not. */
  predicate Enabled(s: State, step: Step) {
    match step
    case StartWait(w, _) => w !in s.waiters
    case Confirm(_, _) => true
    case Wake(w) =>
      w in s.waiters && s.waiters[w].Waiting? && s.waiters[w].key in s.status && s.status[s.waiters[w].key] != Pending
    case TimeOut(w) =>
      w in s.waiters && s.waiters[w].Waiting? && s.waiters[w].key in s.status && s.status[s.waiters[w].key] == Pending
  }

  function Next(s: State, step: Step): State
    requires Enabled(s, step)
  {
    match step
    case StartWait(w, key) =>
      var waiting := s.(waiters := s.waiters[w := Waiting(key)]);
      if key in s.status then waiting
      else
        waiting.(status := s.status[key := Pending],
                 signals := s.signals + [key],
                 history := s.history + [Request(key)])
    case Confirm(key, confirmed) =>
      s.(status := AfterReply(s.status, key, confirmed), history := s.history + [Reply(key, confirmed)])
    case Wake(w) =>
      var key := s.waiters[w].key;
      s.(waiters := s.waiters[w := Answered(key, s.status[key] == Confirmed)])
    case TimeOut(w) => s.(waiters := s.waiters[w := TimedOut(s.waiters[w].key)])
  }

  const START := State(map[], map[], [], [])

  // ---------- what the history says ----------

  /** The key was asked for at position i, and not before. */
  predicate AskedAt(h: seq<Event>, key: Key, i: nat) {
    i < |h| && h[i] == Request(key) && forall l :: 0 <= l < i ==> h[l] != Request(key)
  }

  predicate NoReplyBetween(h: seq<Event>, key: Key, from: nat, to: nat) {
    forall l :: from <= l < to && l < |h| ==> !(h[l].Reply? && h[l].key == key)
  }

  /** `confirmed` is the first reply after the first request for the key. */
  ghost predicate FirstAnswer(h: seq<Event>, key: Key, confirmed: bool) {
    exists i: nat, j: nat :: AskedAt(h, key, i) && i < j < |h| && h[j] == Reply(key, confirmed)
        && NoReplyBetween(h, key, i, j)
  }

  ghost predicate StillAsked(h: seq<Event>, key: Key) {
    exists i: nat :: AskedAt(h, key, i) && NoReplyBetween(h, key, i, |h|)
  }

  lemma {:induction false} AskedOnce(h: seq<Event>, key: Key, i: nat, j: nat)
    requires AskedAt(h, key, i) && AskedAt(h, key, j)
    ensures i == j
  {
  }

  lemma {:induction false} FirstAnswerUnique(h: seq<Event>, key: Key, a: bool, b: bool)
    requires FirstAnswer(h, key, a) && FirstAnswer(h, key, b)
    ensures a == b
  {
    var i: nat, j: nat :| AskedAt(h, key, i) && i < j < |h| && h[j] == Reply(key, a) && NoReplyBetween(h, key, i, j);
    var k: nat, l: nat :| AskedAt(h, key, k) && k < l < |h| && h[l] == Reply(key, b) && NoReplyBetween(h, key, k, l);
    AskedOnce(h, key, i, k);
  }

  lemma {:induction false} FirstAnswerStays(h: seq<Event>, e: Event, key: Key, a: bool)
    requires FirstAnswer(h, key, a)
    ensures FirstAnswer(h + [e], key, a)
  {
    var i: nat, j: nat :| AskedAt(h, key, i) && i < j < |h| && h[j] == Reply(key, a) && NoReplyBetween(h, key, i, j);
    assert AskedAt(h + [e], key, i) && NoReplyBetween(h + [e], key, i, j) && (h + [e])[j] == Reply(key, a);
  }

  lemma {:induction false} StillAskedStays(h: seq<Event>, e: Event, key: Key)
    requires StillAsked(h, key) && !(e.Reply? && e.key == key)
    ensures StillAsked(h + [e], key)
  {
    var i: nat :| AskedAt(h, key, i) && NoReplyBetween(h, key, i, |h|);
    assert AskedAt(h + [e], key, i) && NoReplyBetween(h + [e], key, i, |h| + 1);
  }

  lemma {:induction false} StillAskedAnswered(h: seq<Event>, key: Key, a: bool)
    requires StillAsked(h, key)
    ensures FirstAnswer(h + [Reply(key, a)], key, a)
  {
    var i: nat :| AskedAt(h, key, i) && NoReplyBetween(h, key, i, |h|);
    var g := h + [Reply(key, a)];
    assert AskedAt(g, key, i) && NoReplyBetween(g, key, i, |h|) && g[|h|] == Reply(key, a);
  }

  lemma {:induction false} NewlyAsked(h: seq<Event>, key: Key)
    requires forall l :: 0 <= l < |h| ==> h[l] != Request(key)
    ensures StillAsked(h + [Request(key)], key)
  {
    var g := h + [Request(key)];
    assert AskedAt(g, key, |h|) && NoReplyBetween(g, key, |h|, |g|);
  }

  // ---------- the invariant ----------

  /** Each status says what the history says about its key. */
  ghost predicate StatusTrue(s: State) {
    forall key :: key in s.status ==>
      match s.status[key]
      case Pending => StillAsked(s.history, key)
      case Confirmed => FirstAnswer(s.history, key, true)
      case Rejected => FirstAnswer(s.history, key, false)
  }

  /** A key is asked for at most once, and exactly when it has a status. */
  ghost predicate AskedTrue(s: State) {
    && (forall i, j :: 0 <= i < j < |s.signals| ==> s.signals[i] != s.signals[j])
    && (forall i :: 0 <= i < |s.signals| ==> s.signals[i] in s.status)
    && (forall key :: key in s.status ==> key in s.signals)
    && (forall l :: 0 <= l < |s.history| && s.history[l].Request? ==> s.history[l].key in s.status)
  }

  ghost predicate WaitersTrue(s: State) {
    forall w :: w in s.waiters ==>
      match s.waiters[w]
      case Waiting(key) => key in s.status
      case Answered(key, a) => FirstAnswer(s.history, key, a)
      case TimedOut(key) => key in s.status
  }

  ghost predicate Valid(s: State) {
    StatusTrue(s) && AskedTrue(s) && WaitersTrue(s)
  }

  lemma {:induction false} StatusStaysTrue(s: State, step: Step)
    requires Valid(s) && Enabled(s, step)
    ensures StatusTrue(Next(s, step))
  {
    var t := Next(s, step);
    if |t.history| == |s.history| + 1 {
      var e := t.history[|s.history|];
      forall key | key in t.status
        ensures match t.status[key]
                case Pending => StillAsked(t.history, key)
                case Confirmed => FirstAnswer(t.history, key, true)
                case Rejected => FirstAnswer(t.history, key, false)
      {
        if key !in s.status {
          NewlyAsked(s.history, key);
        } else if s.status[key] == Confirmed {
          FirstAnswerStays(s.history, e, key, true);
        } else if s.status[key] == Rejected {
          FirstAnswerStays(s.history, e, key, false);
        } else if e.Reply? && e.key == key {
          StillAskedAnswered(s.history, key, e.confirmed);
        } else {
          StillAskedStays(s.history, e, key);
        }
      }
    }
  }

  lemma {:induction false} WaitersStayTrue(s: State, step: Step)
    requires Valid(s) && Enabled(s, step)
    ensures WaitersTrue(Next(s, step))
  {
    var t := Next(s, step);
    if |t.history| == |s.history| + 1 {
      forall w | w in s.waiters && s.waiters[w].Answered?
        ensures FirstAnswer(t.history, s.waiters[w].key, s.waiters[w].confirmed)
      {
        FirstAnswerStays(s.history, t.history[|s.history|], s.waiters[w].key, s.waiters[w].confirmed);
      }
    }
  }

  lemma {:induction false} StepKeeps(s: State, step: Step)
    requires Valid(s) && Enabled(s, step)
    ensures Valid(Next(s, step))
    ensures forall key :: key in s.status ==> key in Next(s, step).status
    ensures forall key :: key in s.status && s.status[key] != Pending ==> Next(s, step).status[key] == s.status[key]
    ensures step.Confirm? && step.key !in s.status ==> Next(s, step).status == s.status
  {
    StatusStaysTrue(s, step);
    WaitersStayTrue(s, step);
  }

  /** Each step of a waiter moves it, and it alone: it waits, then has its answer or has given up. */
  lemma {:induction false} WaiterMoves(s: State, step: Step)
    requires Enabled(s, step)
    ensures var t := Next(s, step);
            match step
            case StartWait(w, key) => t.waiters == s.waiters[w := Waiting(key)]
            case Confirm(_, _) => t.waiters == s.waiters
            case Wake(w) =>
              var key := s.waiters[w].key;
              t == s.(waiters := s.waiters[w := Answered(key, s.status[key] == Confirmed)]) && s.status[key] != Pending
            case TimeOut(w) =>
              t == s.(waiters := s.waiters[w := TimedOut(s.waiters[w].key)]) && s.status[s.waiters[w].key] == Pending
  {
  }

  // ---------- runs ----------

  ghost predicate Legal(s: State, steps: seq<Step>)
    decreases |steps|
  {
    steps == [] || (Enabled(s, steps[0]) && Legal(Next(s, steps[0]), steps[1..]))
  }

  function Run(s: State, steps: seq<Step>): State
    requires Legal(s, steps)
    decreases |steps|
  {
    if steps == [] then s else Run(Next(s, steps[0]), steps[1..])
  }

  lemma {:induction false} RunKeeps(s: State, steps: seq<Step>)
    requires Valid(s) && Legal(s, steps)
    ensures Valid(Run(s, steps))
    ensures forall key :: key in s.status && s.status[key] != Pending ==>
              key in Run(s, steps).status && Run(s, steps).status[key] == s.status[key]
    decreases |steps|
  {
    if steps != [] {
      StepKeeps(s, steps[0]);
      RunKeeps(Next(s, steps[0]), steps[1..]);
    }
  }

  /** Keys keep a status and waiters stay known; whoever started to wait is a waiter, and its key was asked for. */
  lemma {:induction false} WaitsAreKept(s: State, steps: seq<Step>, w: nat, key: Key)
    requires Legal(s, steps)
    ensures var t := Run(s, steps);
            && (key in s.status ==> key in t.status) && (w in s.waiters ==> w in t.waiters)
            && (StartWait(w, key) in steps ==> key in t.status && w in t.waiters)
    decreases |steps|
  {
    if steps != [] {
      WaitsAreKept(Next(s, steps[0]), steps[1..], w, key);
    }
  }

  /** Both waiters got an answer, about the same key. */
  predicate SameQuestion(v: Waiter, w: Waiter) {
    v.Answered? && w.Answered? && v.key == w.key
  }

  /**
   In every interleaving: each key is signalled at most once, and all waiters
   that got an answer got the same one, the first reply after the request.
   */
  lemma {:induction false} EveryInterleaving(steps: seq<Step>)
    requires Legal(START, steps)
    ensures var s := Run(START, steps);
            && (forall i, j :: 0 <= i < j < |s.signals| ==> s.signals[i] != s.signals[j])
            && (forall w, key :: StartWait(w, key) in steps ==> key in s.signals && w in s.waiters)
            && (forall w :: w in s.waiters && s.waiters[w].Answered? ==>
                 FirstAnswer(s.history, s.waiters[w].key, s.waiters[w].confirmed))
            && (forall v, w :: v in s.waiters && w in s.waiters && SameQuestion(s.waiters[v], s.waiters[w]) ==>
                 s.waiters[v].confirmed == s.waiters[w].confirmed)
  {
    assert Valid(START);
    RunKeeps(START, steps);
    var s := Run(START, steps);
    forall w, key | StartWait(w, key) in steps
      ensures key in s.signals && w in s.waiters
    {
      WaitsAreKept(START, steps, w, key);
    }
    forall v, w | v in s.waiters && w in s.waiters && SameQuestion(s.waiters[v], s.waiters[w])
      ensures s.waiters[v].confirmed == s.waiters[w].confirmed
    {
      FirstAnswerUnique(s.history, s.waiters[v].key, s.waiters[v].confirmed, s.waiters[w].confirmed);
    }
  }
}
