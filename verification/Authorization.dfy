/**
 The lifetime of generated authorizations: clients come and go, the reference
 count follows them, and a timer runs only while nobody uses the authorization.
 */
module Authorization {
  import opened Wrappers
  import opened Bits

  const INT_LIMIT: nat := 0x8000_0000
  const MILLI_PER_SECOND: nat := 1000
  const MAX_SECS: nat := (CARD32 - 1) / MILLI_PER_SECOND

  /** The longest timeout whose delay is positive as a signed 32-bit number. */
  const MAX_WAIT: nat := (INT_LIMIT - 1) / MILLI_PER_SECOND

  // ---------- timeouts in 32-bit milliseconds ----------

  /** SecurityComputeAuthorizationTimeout: the delay to ask for, and the seconds left over. */
  datatype Delay = Delay(millis: nat, secondsRemaining: nat)

  function ComputeTimeout(seconds: nat): (d: Delay)
    ensures d.millis < CARD32
    ensures d.millis + d.secondsRemaining * 1000 == seconds * 1000
    ensures seconds > 0 ==> d.millis > 0 && d.secondsRemaining < seconds
    ensures d.secondsRemaining > 0 ==> d.millis == 4294967000
  {
    if seconds > MAX_SECS then Delay((MAX_SECS * MILLI_PER_SECOND) % CARD32, seconds - MAX_SECS)
    else Delay((seconds * MILLI_PER_SECOND) % CARD32, 0)
  }

  /** The delays a chain of timer firings asks for until the authorization is freed. */
  function Delays(seconds: nat): (ds: seq<nat>)
    requires seconds > 0
    ensures forall k :: 0 <= k < |ds| ==> 0 < ds[k] < CARD32
    decreases seconds
  {
    var d := ComputeTimeout(seconds);
    if d.secondsRemaining == 0 then [d.millis] else [d.millis] + Delays(d.secondsRemaining)
  }

  function Sum(ds: seq<nat>): nat {
    if ds == [] then 0 else ds[0] + Sum(ds[1..])
  }

  /** The delays asked for add up to the timeout, in ceil(timeout / 4294967) firings. */
  lemma {:induction false} DelaysAddUp(seconds: nat)
    requires seconds > 0
    ensures Sum(Delays(seconds)) == seconds * 1000
    ensures |Delays(seconds)| == (seconds + 4294966) / 4294967
    decreases seconds
  {
    var d := ComputeTimeout(seconds);
    if d.secondsRemaining == 0 {
      assert [d.millis][1..] == [];
    } else {
      DelaysAddUp(d.secondsRemaining);
      assert Delays(seconds)[1..] == Delays(d.secondsRemaining);
      assert seconds == d.secondsRemaining + 4294967;
    }
  }

  /** TimerSet runs the callback at once when the delay is negative as a signed 32-bit number. */
  predicate FiresAtOnce(millis: nat) {
    millis >= INT_LIMIT
  }

  /** The time that really passes while a chain of firings runs. */
  function Waited(ds: seq<nat>): nat {
    if ds == [] then 0 else (if FiresAtOnce(ds[0]) then 0 else ds[0]) + Waited(ds[1..])
  }

  lemma {:induction false} WaitedAtMost(ds: seq<nat>)
    ensures Waited(ds) <= Sum(ds)
    ensures (exists k :: 0 <= k < |ds| && FiresAtOnce(ds[k])) ==> Waited(ds) < Sum(ds)
    ensures (forall k :: 0 <= k < |ds| ==> !FiresAtOnce(ds[k])) ==> Waited(ds) == Sum(ds)
  {
    if ds != [] {
      WaitedAtMost(ds[1..]);
      if k :| 0 <= k < |ds| && FiresAtOnce(ds[k]) {
        if k > 0 {
          assert ds[1..][k - 1] == ds[k];
        }
      }
    }
  }

  /** The chain waits for the whole timeout exactly when the timeout is at most 2147483 seconds. */
  lemma {:induction false} WaitsFullyUpTo(timeout: nat)
    requires timeout > 0
    ensures Waited(Delays(timeout)) == timeout * 1000 <==> timeout <= 2147483
  {
    var ds, d := Delays(timeout), ComputeTimeout(timeout);
    DelaysAddUp(timeout);
    WaitedAtMost(ds);
    assert ds[0] == d.millis;
    if timeout <= 2147483 {
      assert ds == [d.millis];
    } else {
      assert FiresAtOnce(ds[0]);
    }
  }

  // ---------- authorizations and clients ----------

  /** `hasTimer` tells whether a timer was ever made; `armed` is the pending delay, if it runs. */
  datatype Auth = Auth(timeout: nat, refcnt: int, hasTimer: bool, armed: Option<nat>, secondsRemaining: nat)

  datatype Phase = Initial | Running | Retained

  /** `retains` tells whether the client's close-down mode keeps its resources. */
  datatype Client = Client(authId: Option<nat>, live: bool, phase: Phase, retains: bool)

  /** `aborted` tells that an assertion has failed, which ends the server. */
  datatype Server = Server(auths: map<nat, Auth>, clients: map<nat, Client>, aborted: bool)

  datatype Event =
    | Connect(c: nat)
    | SetCloseDownMode(c: nat, retains: bool)
    | Run(c: nat, authId: nat)
    | Retain(c: nat)
    | Leave(c: nat)
    | Generate(a: nat, timeout: nat)
    | Expire(a: nat)
    | Revoke(a: nat)

  /** The clients that are live on an authorization. */
  function LiveOn(s: Server, a: nat): set<nat> {
    set c | c in s.clients && s.clients[c].live && s.clients[c].authId == Some(a)
  }

  /** Each count is the number of live clients. */
  ghost predicate Counted(s: Server) {
    forall a :: a in s.auths ==> s.auths[a].refcnt == |LiveOn(s, a)|
  }

  /** A timer that runs has been made and stored, and nobody uses its authorization. */
  ghost predicate Timed(s: Server) {
    forall a :: a in s.auths && s.auths[a].armed.Some? ==> s.auths[a].refcnt == 0 && s.auths[a].hasTimer
  }

  /** An unused authorization with a timeout waits for all of it. */
  predicate Waits(auth: Auth) {
    auth.refcnt == 0 && auth.timeout > 0 ==> auth.armed == Some(auth.timeout * 1000)
  }

  ghost predicate Waiting(s: Server) {
    !s.aborted ==> forall a :: a in s.auths ==> Waits(s.auths[a])
  }

  /** A client that has not run yet is not live. */
  ghost predicate Fresh(s: Server) {
    forall c :: c in s.clients && s.clients[c].phase.Initial? ==> !s.clients[c].live && s.clients[c].authId.None?
  }

  /** While the server runs, no authorization has a delay that fires at once. */
  ghost predicate Patient(s: Server) {
    !s.aborted ==> forall a :: a in s.auths ==> s.auths[a].timeout <= MAX_WAIT && s.auths[a].secondsRemaining == 0
  }

  ghost predicate Valid(s: Server) {
    Counted(s) && Timed(s) && Waiting(s) && Fresh(s) && Patient(s)
  }

  /** When an event may happen; authorization ids are never reused. */
  predicate Enabled(s: Server, e: Event) {
    !s.aborted &&
    match e
    case Connect(c) => c !in s.clients
    case SetCloseDownMode(c, _) => c in s.clients
    case Run(c, _) => c in s.clients && s.clients[c].phase.Initial?
    case Retain(c) => c in s.clients && s.clients[c].phase.Running?
    case Leave(c) => c in s.clients
    case Generate(a, timeout) =>
      a !in s.auths && timeout < CARD32 && (forall c :: c in s.clients ==> s.clients[c].authId != Some(a))
    case Expire(a) => a in s.auths && s.auths[a].armed.Some?
    case Revoke(a) => a in s.auths
  }

  // ---------- what the handlers do ----------

  /** Whether closing a client down leaves it behind, retained. */
  predicate Stays(client: Client) {
    client.retains && !client.phase.Retained?
  }

  /** SecurityDeleteAuthorization: the authorization goes, then its clients are closed down. */
  function Delete(s: Server, a: nat): Server {
    Server(s.auths - {a},
           map c | c in s.clients && (s.clients[c].authId != Some(a) || Stays(s.clients[c])) ::
             if s.clients[c].authId == Some(a) then s.clients[c].(phase := Retained) else s.clients[c],
           s.aborted)
  }

  /** What a timer started for `seconds` settles on: a pending delay, no timer, or an immediate end. */
  datatype Settled = Pending(millis: nat, secondsRemaining: nat) | Idle | Ended

  function Settle(seconds: nat): (r: Settled)
    ensures r.Pending? ==> 0 < r.millis < INT_LIMIT
    ensures r.Idle? <==> seconds == 0
    decreases seconds
  {
    var d := ComputeTimeout(seconds);
    if seconds == 0 then Idle
    else if !FiresAtOnce(d.millis) then Pending(d.millis, d.secondsRemaining)
    else if d.secondsRemaining > 0 then Settle(d.secondsRemaining)
    else Ended
  }

  function Rearmed(auth: Auth, hasTimer: bool, armed: Option<nat>, left: nat): Auth {
    auth.(hasTimer := hasTimer, armed := armed, secondsRemaining := left)
  }

  /** The authorizations while the timer of `a`, told to wait `seconds`, has not been armed yet. */
  function Halted(auths: map<nat, Auth>, a: nat, seconds: nat): map<nat, Auth>
    requires a in auths
  {
    auths[a := Rearmed(auths[a], true, None, ComputeTimeout(seconds).secondsRemaining)]
  }

  /**
   SecurityStartAuthorizationTimer. A first timer that fires at once calls back
   before it is stored in the authorization, and the assertion on it fails.
   */
  function StartTimer(s: Server, a: nat, seconds: nat): Server
    requires a in s.auths
  {
    var auth, d := s.auths[a], ComputeTimeout(seconds);
    if !auth.hasTimer && FiresAtOnce(d.millis) then
      s.(auths := s.auths[a := Rearmed(auth, false, None, d.secondsRemaining)], aborted := true)
    else
      match Settle(seconds)
      case Pending(millis, left) => s.(auths := s.auths[a := Rearmed(auth, true, Some(millis), left)])
      case Idle => s.(auths := s.auths[a := Rearmed(auth, true, None, 0)])
      case Ended => Delete(s, a)
  }

  /** ClientStateRunning */
  function ClientRuns(s: Server, c: nat, id: nat): Server
    requires c in s.clients
  {
    if id !in s.auths then s.(clients := s.clients[c := s.clients[c].(authId := Some(id), phase := Running)])
    else
      var auth := s.auths[id];
      var counted := auth.(refcnt := auth.refcnt + 1);
      Server(s.auths[id := if counted.refcnt == 1 then counted.(armed := None) else counted],
             s.clients[c := s.clients[c].(authId := Some(id), live := true, phase := Running)],
             s.aborted)
  }

  function Dropped(s: Server, c: nat, a: nat): Server
    requires c in s.clients && a in s.auths
  {
    s.(auths := s.auths[a := s.auths[a].(refcnt := s.auths[a].refcnt - 1)],
       clients := s.clients[c := s.clients[c].(live := false)])
  }

  /** ClientStateGone and ClientStateRetained: the authorization is let go of once. */
  function ClientLetsGo(s: Server, c: nat): Server
    requires c in s.clients
  {
    var client := s.clients[c];
    if client.authId.None? || client.authId.value !in s.auths || !client.live then s
    else
      var a := client.authId.value;
      var auth := s.auths[a];
      var dropped := Dropped(s, c, a);
      if auth.refcnt - 1 == 0 then StartTimer(dropped, a, auth.timeout) else dropped
  }

  function Step(s: Server, e: Event): Server
    requires Enabled(s, e)
  {
    match e
    case Connect(c) => s.(clients := s.clients[c := Client(None, false, Initial, false)])
    case SetCloseDownMode(c, retains) => s.(clients := s.clients[c := s.clients[c].(retains := retains)])
    case Run(c, id) => ClientRuns(s, c, id)
    case Retain(c) =>
      var t := ClientLetsGo(s, c);
      if c in t.clients then t.(clients := t.clients[c := t.clients[c].(phase := Retained)]) else t
    case Leave(c) =>
      var t := ClientLetsGo(s, c);
      t.(clients := t.clients - {c})
    case Generate(a, timeout) =>
      var t := s.(auths := s.auths[a := Auth(timeout, 0, false, None, 0)]);
      if timeout != 0 then StartTimer(t, a, timeout) else t
    case Expire(a) =>
      var auth := s.auths[a];
      if auth.secondsRemaining > 0 then StartTimer(s, a, auth.secondsRemaining) else Delete(s, a)
    case Revoke(a) => Delete(s, a)
  }

  // ---------- what every event keeps ----------

  lemma {:induction false} DeleteKeeps(s: Server, a: nat)
    requires Valid(s)
    ensures Valid(Delete(s, a))
  {
    var t := Delete(s, a);
    forall b | b in t.auths
      ensures LiveOn(t, b) == LiveOn(s, b)
    {
    }
  }

  lemma {:induction false} SettlesShort(seconds: nat)
    requires seconds <= MAX_WAIT
    ensures !FiresAtOnce(ComputeTimeout(seconds).millis)
    ensures Settle(seconds) == if seconds == 0 then Idle else Pending(seconds * 1000, 0)
  {
  }

  /** Starting a timer on an unused authorization; only a first start for too long a timeout aborts. */
  lemma {:induction false} StartTimerKeeps(s: Server, a: nat)
    requires Counted(s) && Timed(s) && Fresh(s) && a in s.auths && s.auths[a].refcnt == 0 && !s.aborted
    requires forall b :: b in s.auths && b != a ==> s.auths[b].timeout <= MAX_WAIT && s.auths[b].secondsRemaining == 0
    requires forall b :: b in s.auths && b != a ==> Waits(s.auths[b])
    requires s.auths[a].hasTimer ==> s.auths[a].timeout <= MAX_WAIT
    ensures Valid(StartTimer(s, a, s.auths[a].timeout))
    ensures StartTimer(s, a, s.auths[a].timeout).aborted <==> s.auths[a].timeout > MAX_WAIT
  {
    var t := StartTimer(s, a, s.auths[a].timeout);
    if s.auths[a].timeout <= MAX_WAIT {
      SettlesShort(s.auths[a].timeout);
    }
    assert forall b :: LiveOn(t, b) == LiveOn(s, b);
  }

  lemma {:induction false} RunsLiveOn(s: Server, c: nat, id: nat, a: nat)
    requires Valid(s) && c in s.clients && s.clients[c].phase.Initial? && a in s.auths
    ensures LiveOn(ClientRuns(s, c, id), a) == LiveOn(s, a) + if a == id then {c} else {}
    ensures c !in LiveOn(s, a)
  {
  }

  lemma {:induction false} RunsCounted(s: Server, c: nat, id: nat)
    requires Valid(s) && c in s.clients && s.clients[c].phase.Initial?
    ensures Counted(ClientRuns(s, c, id))
  {
    var t := ClientRuns(s, c, id);
    forall a | a in t.auths
      ensures t.auths[a].refcnt == |LiveOn(t, a)|
    {
      RunsLiveOn(s, c, id, a);
      assert t.auths[a].refcnt == s.auths[a].refcnt + if a == id then 1 else 0;
    }
  }

  lemma {:induction false} ClientRunsKeeps(s: Server, c: nat, id: nat)
    requires Valid(s) && c in s.clients && s.clients[c].phase.Initial?
    ensures Valid(ClientRuns(s, c, id))
    ensures ClientRuns(s, c, id).aborted == s.aborted
  {
    var t := ClientRuns(s, c, id);
    RunsCounted(s, c, id);
    forall a | a in t.auths && t.auths[a].armed.Some?
      ensures t.auths[a].refcnt == 0 && t.auths[a].hasTimer
    {
      RunsUnarmed(s, c, id);
      assert t.auths[a] == s.auths[a];
    }
  }

  /** The first user of an authorization stops its timer. */
  lemma {:induction false} RunsUnarmed(s: Server, c: nat, id: nat)
    requires Valid(s) && c in s.clients
    ensures id in s.auths ==> ClientRuns(s, c, id).auths[id].armed.None?
  {
  }

  lemma {:induction false} DroppedLiveOn(s: Server, c: nat, a: nat, b: nat)
    requires c in LiveOn(s, a) && a in s.auths
    ensures LiveOn(Dropped(s, c, a), b) == if b == a then LiveOn(s, b) - {c} else LiveOn(s, b)
  {
  }

  lemma {:induction false} DroppedKeeps(s: Server, c: nat, a: nat)
    requires Valid(s) && c in LiveOn(s, a) && a in s.auths
    ensures var t := Dropped(s, c, a);
            && Counted(t) && Timed(t) && Fresh(t) && Patient(t)
            && (s.auths[a].refcnt > 1 ==> Waiting(t))
            && (!s.aborted ==> forall b :: b in t.auths && b != a ==> Waits(t.auths[b]))
  {
    var t := Dropped(s, c, a);
    forall b | b in t.auths
      ensures t.auths[b].refcnt == |LiveOn(t, b)|
    {
      DroppedLiveOn(s, c, a, b);
    }
    assert s.auths[a].refcnt > 0 by {
      assert LiveOn(s, a) != {};
    }
  }

  lemma {:induction false} ClientLetsGoKeeps(s: Server, c: nat)
    requires Valid(s) && c in s.clients && !s.aborted
    ensures Valid(ClientLetsGo(s, c)) && !ClientLetsGo(s, c).aborted
    ensures var t := ClientLetsGo(s, c);
            c in t.clients && t.clients[c].live ==> t.clients[c].authId.None? || t.clients[c].authId.value !in t.auths
  {
    var client := s.clients[c];
    if client.authId.Some? && client.authId.value in s.auths && client.live {
      var a := client.authId.value;
      DroppedKeeps(s, c, a);
      if s.auths[a].refcnt - 1 == 0 {
        StartTimerKeeps(Dropped(s, c, a), a);
        SettlesShort(s.auths[a].timeout);
      }
    }
  }

  /** Changing or dropping a client that is live on no authorization changes no count. */
  lemma {:induction false} QuietClientKeeps(s: Server, t: Server, c: nat)
    requires Valid(s) && t.auths == s.auths && t.aborted == s.aborted && t.clients - {c} == s.clients - {c}
    requires c in s.clients && s.clients[c].live ==> s.clients[c].authId.None? || s.clients[c].authId.value !in s.auths
    requires c in t.clients && t.clients[c].live ==>
               c in s.clients && s.clients[c].live && t.clients[c].authId == s.clients[c].authId
    requires c in t.clients && t.clients[c].phase.Initial? ==> !t.clients[c].live && t.clients[c].authId.None?
    ensures Valid(t)
  {
    forall d | d != c
      ensures (d in t.clients <==> d in s.clients) && (d in t.clients ==> t.clients[d] == s.clients[d])
    {
      assert d in t.clients <==> d in t.clients - {c};
      assert d in s.clients <==> d in s.clients - {c};
      if d in t.clients {
        assert (t.clients - {c})[d] == (s.clients - {c})[d];
      }
    }
    forall a | a in t.auths
      ensures LiveOn(t, a) == LiveOn(s, a)
    {
      forall d
        ensures d in LiveOn(t, a) <==> d in LiveOn(s, a)
      {
        if d == c {
          assert d !in LiveOn(s, a) && d !in LiveOn(t, a);
        }
      }
    }
    forall d | d in t.clients && t.clients[d].phase.Initial?
      ensures !t.clients[d].live && t.clients[d].authId.None?
    {
      if d != c {
        assert d in s.clients && s.clients[d] == t.clients[d];
      }
    }
  }

  lemma {:induction false} GenerateKeeps(s: Server, a: nat, timeout: nat)
    requires Valid(s) && Enabled(s, Generate(a, timeout))
    ensures Valid(Step(s, Generate(a, timeout)))
    ensures Step(s, Generate(a, timeout)).aborted <==> timeout > MAX_WAIT
  {
    var t := s.(auths := s.auths[a := Auth(timeout, 0, false, None, 0)]);
    assert LiveOn(t, a) == {};
    assert forall b :: LiveOn(t, b) == LiveOn(s, b);
    if timeout != 0 {
      StartTimerKeeps(t, a);
    }
  }

  /**
   Every event keeps the counts exact and the timers quiet while an
   authorization is in use; the server aborts exactly when an authorization is
   generated with a timeout above 2147483 seconds.
   */
  lemma {:induction false} StepKeeps(s: Server, e: Event)
    requires Valid(s) && Enabled(s, e)
    ensures Valid(Step(s, e))
    ensures Step(s, e).aborted <==> e.Generate? && e.timeout > 2147483
  {
    match e
    case Connect(c) => QuietClientKeeps(s, Step(s, e), c);
    case SetCloseDownMode(c, _) =>
      assert forall a :: LiveOn(Step(s, e), a) == LiveOn(s, a);
    case Run(c, id) => ClientRunsKeeps(s, c, id);
    case Retain(c) =>
      ClientLetsGoKeeps(s, c);
      QuietClientKeeps(ClientLetsGo(s, c), Step(s, e), c);
    case Leave(c) =>
      ClientLetsGoKeeps(s, c);
      QuietClientKeeps(ClientLetsGo(s, c), Step(s, e), c);
    case Generate(a, timeout) => GenerateKeeps(s, a, timeout);
    case Expire(a) => DeleteKeeps(s, a);
    case Revoke(a) => DeleteKeeps(s, a);
  }

  /** An authorization that is generated without aborting waits for its whole timeout in one delay. */
  lemma {:induction false} GenerateWaits(s: Server, a: nat, timeout: nat)
    requires Enabled(s, Generate(a, timeout)) && 0 < timeout <= 2147483
    ensures var t := Step(s, Generate(a, timeout));
            a in t.auths && t.auths[a] == Auth(timeout, 0, true, Some(timeout * 1000), 0)
  {
    SettlesShort(timeout);
  }

  /** One second more, and generating the authorization ends the server. */
  lemma {:induction false} TooLongAborts()
    ensures Enabled(Server(map[], map[], false), Generate(0, 2147484))
    ensures Step(Server(map[], map[], false), Generate(0, 2147484)).aborted
  {
    assert Valid(Server(map[], map[], false));
    GenerateKeeps(Server(map[], map[], false), 0, 2147484);
  }

  ghost predicate Legal(s: Server, es: seq<Event>)
    decreases |es|
  {
    es == [] || (Enabled(s, es[0]) && Legal(Step(s, es[0]), es[1..]))
  }

  function After(s: Server, es: seq<Event>): Server
    requires Legal(s, es)
    decreases |es|
  {
    if es == [] then s else After(Step(s, es[0]), es[1..])
  }

  /**
   After any run of events: each count is the number of live clients, so a
   timer that expires frees an authorization nobody uses; and the server was
   aborted exactly by an authorization generated for too long a timeout.
   */
  lemma {:induction false} RunKeeps(s: Server, es: seq<Event>)
    requires Valid(s) && Legal(s, es)
    ensures Valid(After(s, es))
    ensures forall a :: Enabled(After(s, es), Expire(a)) ==> LiveOn(After(s, es), a) == {}
    ensures After(s, es).aborted <==> s.aborted || exists k :: 0 <= k < |es| && TooLong(es[k])
    decreases |es|
  {
    if es != [] {
      StepKeeps(s, es[0]);
      RunKeeps(Step(s, es[0]), es[1..]);
      assert forall k :: 0 < k < |es| ==> es[k] == es[1..][k - 1];
    } else {
      forall a | Enabled(s, Expire(a))
        ensures LiveOn(s, a) == {}
      {
        assert |LiveOn(s, a)| == 0;
      }
    }
  }

  predicate TooLong(e: Event) {
    e.Generate? && e.timeout > 2147483
  }

  /** An expiry closes down no live client. */
  lemma {:induction false} ExpiryHurtsNobody(s: Server, a: nat)
    requires Valid(s) && Enabled(s, Expire(a))
    ensures var t := Step(s, Expire(a));
            forall c :: c in s.clients && s.clients[c].live ==> c in t.clients && t.clients[c] == s.clients[c]
  {
    assert |LiveOn(s, a)| == 0;
    forall c | c in s.clients && s.clients[c].live
      ensures s.clients[c].authId != Some(a)
    {
      assert c !in LiveOn(s, a);
    }
  }

  // ---------- what each handler does ----------

  /** Deleting closes down exactly the authorization's clients; those that retain their resources stay, retained. */
  lemma {:induction false} DeleteExactly(s: Server, a: nat, c: nat)
    ensures var t := Delete(s, a);
            && (forall b :: b in t.auths <==> b in s.auths && b != a)
            && (forall b :: b in t.auths ==> t.auths[b] == s.auths[b])
            && (c in t.clients <==>
                 c in s.clients
                     && (s.clients[c].authId == Some(a) ==> s.clients[c].retains && s.clients[c].phase != Retained))
            && (c in t.clients ==>
                 t.clients[c] == if s.clients[c].authId == Some(a)
                     then s.clients[c].(phase := Retained) else s.clients[c])
  {
  }

  /** A client that runs is live exactly on a generated authorization; its first user stops the timer. */
  lemma {:induction false} RunExactly(s: Server, c: nat, id: nat)
    requires Valid(s) && Enabled(s, Run(c, id))
    ensures var t := Step(s, Run(c, id));
            && t.clients == s.clients[c := Client(Some(id), id in s.auths, Running, s.clients[c].retains)]
            && (id !in s.auths ==> t.auths == s.auths)
            && (id in s.auths ==>
                 && t.auths.Keys == s.auths.Keys && (forall b :: b in s.auths && b != id ==> t.auths[b] == s.auths[b])
                 && t.auths[id] == s.auths[id].(refcnt := s.auths[id].refcnt + 1, armed := None))
  {
    if id in s.auths && s.auths[id].armed.Some? {
      assert s.auths[id].refcnt == 0;
    }
    assert !s.clients[c].live;
  }

  /** The last live client that lets go starts the timer for the whole timeout; nobody else is affected. */
  lemma {:induction false} LetsGoExactly(s: Server, c: nat, a: nat)
    requires Valid(s) && !s.aborted && c in s.clients && s.clients[c].live && s.clients[c].authId == Some(a)
    requires a in s.auths
    ensures var t, auth := ClientLetsGo(s, c), s.auths[a];
            && t.clients == s.clients[c := s.clients[c].(live := false)]
            && t.auths.Keys == s.auths.Keys && (forall b :: b in s.auths && b != a ==> t.auths[b] == s.auths[b])
            && t.auths[a].refcnt == auth.refcnt - 1 && t.auths[a].timeout == auth.timeout
            && (auth.refcnt == 1 ==> t.auths[a].armed == if auth.timeout > 0 then Some(auth.timeout * 1000) else None)
            && (auth.refcnt > 1 ==> t.auths[a].armed == auth.armed)
  {
    SettlesShort(s.auths[a].timeout);
  }

  /** A client that is not live on an authorization lets go of nothing. */
  lemma {:induction false} NothingToLetGo(s: Server, c: nat)
    requires c in s.clients
    requires s.clients[c].live ==> s.clients[c].authId.None? || s.clients[c].authId.value !in s.auths
    ensures ClientLetsGo(s, c) == s
  {
  }

  /** A client comes and goes, says how it wants to be closed down, and is retained when it asked for that. */
  lemma {:induction false} ClientsComeAndGo(s: Server, e: Event, c: nat)
    requires Enabled(s, e)
    ensures e == Connect(c) ==> Step(s, e) == s.(clients := s.clients[c := Client(None, false, Initial, false)])
    ensures e == Leave(c) ==> c !in Step(s, e).clients
    ensures e == Retain(c) && c in Step(s, e).clients ==> Step(s, e).clients[c].phase == Retained
    ensures e.SetCloseDownMode? && e.c == c ==>
              Step(s, e) == s.(clients := s.clients[c := s.clients[c].(retains := e.retains)])
  {
  }

  /** Revoking an authorization and letting it expire free it alike. */
  lemma {:induction false} RevokeFrees(s: Server, a: nat)
    requires Valid(s) && Enabled(s, Revoke(a))
    ensures a !in Step(s, Revoke(a)).auths && Step(s, Revoke(a)) == Delete(s, a)
    ensures Enabled(s, Expire(a)) ==> Step(s, Expire(a)) == Step(s, Revoke(a))
  {
  }

  /** Leaving and being retained let go of the authorization in the same way. */
  lemma {:induction false} LeavingLetsGo(s: Server, c: nat)
    requires Valid(s) && Enabled(s, Leave(c))
    ensures Step(s, Leave(c)).auths == ClientLetsGo(s, c).auths
    ensures Enabled(s, Retain(c)) ==> Step(s, Retain(c)).auths == ClientLetsGo(s, c).auths
    ensures forall d :: d != c && d in s.clients ==>
              (d in Step(s, Leave(c)).clients <==> d in ClientLetsGo(s, c).clients)
  {
  }

  /** An unused authorization with a timeout is always on its way to be freed. */
  lemma {:induction false} UnusedIsWaiting(s: Server, es: seq<Event>, a: nat)
    requires Valid(s) && Legal(s, es)
    ensures var t := After(s, es);
            !t.aborted && a in t.auths && LiveOn(t, a) == {} && t.auths[a].timeout > 0 ==>
              && t.auths[a].armed == Some(t.auths[a].timeout * 1000)
              && Enabled(t, Expire(a)) && a !in Step(t, Expire(a)).auths
  {
    RunKeeps(s, es);
    var t := After(s, es);
    if !t.aborted && a in t.auths && LiveOn(t, a) == {} {
      assert t.auths[a].refcnt == |LiveOn(t, a)| == 0;
      assert Waits(t.auths[a]);
    }
  }

  /** Letting go twice counts once: Retained and then Gone. */
  lemma {:induction false} RetainThenLeave(s: Server, c: nat)
    requires Valid(s) && Enabled(s, Retain(c))
    ensures var t := Step(s, Retain(c));
            !t.aborted && (c in t.clients ==> forall a :: a in t.auths ==>
              a in Step(t, Leave(c)).auths && Step(t, Leave(c)).auths[a].refcnt == t.auths[a].refcnt)
  {
    ClientLetsGoKeeps(s, c);
  }

  // ---------- the handlers, updating the server in place ----------

  class SecurityState {
    var auths: map<nat, Auth>
    var clients: map<nat, Client>
    var currentMaxClients: nat
    var aborted: bool

    ghost function View(): Server
      reads this
    {
      Server(auths, clients, aborted)
    }

    /** Client indices are below the current maximum. */
    ghost predicate Indexed()
      reads this
    {
      forall c :: c in clients ==> c < currentMaxClients
    }

    constructor ()
      ensures Indexed() && View() == Server(map[], map[], false) && Valid(View())
    {
      auths, clients, currentMaxClients, aborted := map[], map[], 0, false;
    }

    /** SecurityComputeAuthorizationTimeout */
    method ComputeAuthorizationTimeout(a: nat, seconds: nat) returns (millis: nat)
      requires a in auths
      modifies this`auths
      ensures millis == ComputeTimeout(seconds).millis
      ensures auths == old(auths)[a := old(auths[a]).(secondsRemaining := ComputeTimeout(seconds).secondsRemaining)]
    {
      if seconds > MAX_SECS {
        auths := auths[a := auths[a].(secondsRemaining := seconds - MAX_SECS)];
        return (MAX_SECS * MILLI_PER_SECOND) % CARD32;
      }
      auths := auths[a := auths[a].(secondsRemaining := 0)];
      return (seconds * MILLI_PER_SECOND) % CARD32;
    }

    /** Starts the timer; TimerSet calls the expiry back for as long as the delay fires at once. */
    method StartAuthorizationTimer(a: nat, seconds: nat)
      requires Indexed() && a in auths
      modifies this`auths, this`clients, this`aborted
      ensures Indexed() && View() == StartTimer(old(View()), a, seconds)
    {
      ghost var before := View();
      auths := auths[a := auths[a].(armed := None)];
      var millis := ComputeAuthorizationTimeout(a, seconds);
      if FiresAtOnce(millis) && !auths[a].hasTimer {
        aborted := true;
        return;
      }
      auths := auths[a := auths[a].(hasTimer := true)];
      assert auths == Halted(before.auths, a, seconds);
      SettleTimer(a, seconds, millis, before);
    }

    /** The timer has been told to wait `millis`; a delay that fires at once is followed by the next one. */
    method SettleTimer(a: nat, seconds: nat, delay: nat, ghost before: Server)
      requires Indexed() && a in before.auths && delay == ComputeTimeout(seconds).millis
      requires View() == before.(auths := Halted(before.auths, a, seconds))
      requires before.auths[a].hasTimer || !FiresAtOnce(delay)
      modifies this`auths, this`clients
      ensures Indexed() && View() == StartTimer(before, a, seconds)
    {
      var left, millis := seconds, delay;
      while FiresAtOnce(millis) && auths[a].secondsRemaining > 0
        invariant a in auths && millis == ComputeTimeout(left).millis && Settle(left) == Settle(seconds)
        invariant auths == Halted(before.auths, a, left)
        invariant clients == before.clients
        decreases left
      {
        left := auths[a].secondsRemaining;
        millis := ComputeAuthorizationTimeout(a, left);
      }
      if FiresAtOnce(millis) {
        DeleteAuthorization(a);
        assert View() == Delete(before, a);
      } else if millis > 0 {
        auths := auths[a := auths[a].(armed := Some(millis))];
      }
    }

    /** SecurityDeleteAuthorization: frees the authorization and closes down its clients one by one. */
    method DeleteAuthorization(a: nat)
      requires Indexed()
      modifies this`auths, this`clients
      ensures Indexed() && View() == Delete(old(View()), a)
    {
      auths := auths - {a};
      var i := 0;
      while i < currentMaxClients
        invariant i <= currentMaxClients && auths == old(auths) - {a} && Indexed()
        invariant forall c :: c in clients <==>
                    c in old(clients) && (i <= c || old(clients)[c].authId != Some(a) || Stays(old(clients)[c]))
        invariant forall c :: c in clients ==>
                    clients[c] == if c < i && old(clients)[c].authId == Some(a) then old(clients)[c].(phase := Retained)
                                  else old(clients)[c]
      {
        if i in clients && clients[i].authId == Some(a) {
          if Stays(clients[i]) {
            clients := clients[i := clients[i].(phase := Retained)];
          } else {
            clients := clients - {i};
          }
        }
        i := i + 1;
      }
      assert clients == Delete(old(View()), a).clients;
    }

    /** SecurityClientState for a client that starts running. */
    method ClientStateRunning(c: nat, id: nat)
      requires Indexed() && c in clients
      modifies this`auths, this`clients
      ensures Indexed() && View() == ClientRuns(old(View()), c, id)
    {
      clients := clients[c := clients[c].(authId := Some(id), phase := Running)];
      if id in auths {
        auths := auths[id := auths[id].(refcnt := auths[id].refcnt + 1)];
        clients := clients[c := clients[c].(live := true)];
        if auths[id].refcnt == 1 {
          auths := auths[id := auths[id].(armed := None)];
        }
      }
    }

    /** SecurityClientState for a client that is retained or gone. */
    method ClientStateGone(c: nat)
      requires Indexed() && c in clients
      modifies this`auths, this`clients, this`aborted
      ensures Indexed() && View() == ClientLetsGo(old(View()), c)
    {
      var client := clients[c];
      if client.authId.Some? && client.authId.value in auths && client.live {
        var a := client.authId.value;
        auths := auths[a := auths[a].(refcnt := auths[a].refcnt - 1)];
        clients := clients[c := client.(live := false)];
        if auths[a].refcnt == 0 {
          StartAuthorizationTimer(a, auths[a].timeout);
        }
      }
    }

    /** SecurityAuthorizationExpired, called by the timer. */
    method AuthorizationExpired(a: nat)
      requires Indexed() && Enabled(View(), Expire(a))
      modifies this`auths, this`clients, this`aborted
      ensures Indexed() && View() == Step(old(View()), Expire(a))
      ensures Valid(old(View())) ==> Valid(View()) && !aborted
      ensures Valid(old(View())) ==>
                forall c :: c in old(clients) && old(clients)[c].live ==> c in clients && clients[c] == old(clients)[c]
    {
      ghost var s := View();
      if auths[a].secondsRemaining > 0 {
        StartAuthorizationTimer(a, auths[a].secondsRemaining);
      } else {
        DeleteAuthorization(a);
      }
      if Valid(s) {
        StepKeeps(s, Expire(a));
        ExpiryHurtsNobody(s, a);
      }
    }
  }
}
