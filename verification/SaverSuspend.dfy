/**
 Screen-saver suspension: a list of records, one per suspending client, with a
 count each. The list stands for a map from clients to positive counts, and the
 screen saver is suspended exactly while that map is not empty.
 */
module SaverSuspend {
  datatype Suspension = Suspension(client: nat, resource: nat, count: int)

  datatype Status = Success | BadAlloc

  // ---------- the map a list stands for ----------

  /** At most one record per client, with a positive count. */
  predicate Proper(list: seq<Suspension>) {
    && (forall i, j :: 0 <= i < j < |list| ==> list[i].client != list[j].client)
    && (forall i :: 0 <= i < |list| ==> list[i].count > 0)
  }

  predicate HasRecord(list: seq<Suspension>, c: nat) {
    exists i :: 0 <= i < |list| && list[i].client == c
  }

  /** The map holds exactly the counts of the list. */
  ghost predicate Represents(list: seq<Suspension>, m: map<nat, int>) {
    && Proper(list)
    && (forall i :: 0 <= i < |list| ==> list[i].client in m && m[list[i].client] == list[i].count)
    && (forall c :: c in m ==> HasRecord(list, c))
  }

  /** What a suspend or resume request does to the map. */
  function Request(m: map<nat, int>, c: nat, suspend: bool): map<nat, int> {
    if suspend then m[c := 1 + if c in m then m[c] else 0]
    else if c !in m then m
    else if m[c] == 1 then m - {c}
    else m[c := m[c] - 1]
  }

  // ---------- updating, appending and unlinking a record ----------

  lemma {:induction false} UpdateRecord(list: seq<Suspension>, m: map<nat, int>, k: nat, count: int)
    requires Represents(list, m) && k < |list| && count > 0
    ensures Represents(list[k := list[k].(count := count)], m[list[k].client := count])
  {
    var next, n := list[k := list[k].(count := count)], m[list[k].client := count];
    assert forall i :: 0 <= i < |list| ==> next[i].client == list[i].client;
    forall d | d in n
      ensures HasRecord(next, d)
    {
      assert d in m;
      var i :| 0 <= i < |list| && list[i].client == d;
      assert next[i].client == d;
    }
  }

  lemma {:induction false} AppendRecord(list: seq<Suspension>, m: map<nat, int>, r: Suspension)
    requires Represents(list, m) && r.client !in m && r.count > 0
    ensures Represents(list + [r], m[r.client := r.count])
  {
    var next, n := list + [r], m[r.client := r.count];
    assert next[|list|] == r;
    forall d | d in n
      ensures HasRecord(next, d)
    {
      if d != r.client {
        assert d in m;
        var i :| 0 <= i < |list| && list[i].client == d;
        assert next[i].client == d;
      }
    }
  }

  function Without(list: seq<Suspension>, k: nat): (r: seq<Suspension>)
    requires k < |list|
    ensures |r| == |list| - 1 && forall i :: 0 <= i < |r| ==> r[i] == list[if i < k then i else i + 1]
  {
    list[..k] + list[k + 1..]
  }

  lemma {:induction false} UnlinkRecord(list: seq<Suspension>, m: map<nat, int>, k: nat)
    requires Represents(list, m) && k < |list|
    ensures Represents(Without(list, k), m - {list[k].client})
  {
    var next, n := Without(list, k), m - {list[k].client};
    forall d | d in n
      ensures HasRecord(next, d)
    {
      assert d in m;
      var i :| 0 <= i < |list| && list[i].client == d;
      assert next[if i < k then i else i - 1].client == d;
    }
  }

  // ---------- events ----------

  /** A request, with what the allocations for a new record would give, or a disconnect. */
  datatype Event =
    | Requested(c: nat, suspend: bool, resource: nat, granted: bool, added: bool)
    | Disconnected(c: nat)

  /** A suspend by a client without a record that gets no memory or no resource for one. */
  predicate Refused(m: map<nat, int>, e: Event) {
    e.Requested? && e.suspend && e.c !in m && !(e.granted && e.added)
  }

  function Replay(m: map<nat, int>, es: seq<Event>): map<nat, int>
    decreases |es|
  {
    if es == [] then m else Replay(After(m, es[0]), es[1..])
  }

  function After(m: map<nat, int>, e: Event): map<nat, int> {
    match e
    case Disconnected(c) => m - {c}
    case Requested(c, suspend, _, _, _) => if Refused(m, e) then m else Request(m, c, suspend)
  }

  // ---------- the server's list and flag ----------

  class SaverServer {
    var suspendingClients: seq<Suspension>
    var screenSaverSuspended: bool
    ghost var counts: map<nat, int>

    ghost predicate Valid()
      reads this
    {
      Represents(suspendingClients, counts) && (screenSaverSuspended <==> counts != map[])
    }

    constructor ()
      ensures Valid() && counts == map[]
    {
      suspendingClients, screenSaverSuspended, counts := [], false, map[];
    }

    /** The position of the client's record, or the end of the list. */
    method FindClient(c: nat) returns (k: nat)
      requires Valid()
      ensures k <= |suspendingClients|
      ensures c in counts <==> k < |suspendingClients|
      ensures k < |suspendingClients| ==> suspendingClients[k].client == c && counts[c] == suspendingClients[k].count
    {
      k := 0;
      while k < |suspendingClients| && suspendingClients[k].client != c
        invariant k <= |suspendingClients|
        invariant forall i :: 0 <= i < k ==> suspendingClients[i].client != c
      {
        k := k + 1;
      }
    }

    /** ScreenSaverFreeSuspend for a listed record: unlinks it and, after the last one, resumes the screen saver. */
    method FreeSuspend(k: nat)
      requires Represents(suspendingClients, counts) && k < |suspendingClients|
      requires screenSaverSuspended
      modifies this
      ensures Valid() && counts == old(counts) - {old(suspendingClients)[k].client}
    {
      UnlinkRecord(suspendingClients, counts, k);
      ghost var c := suspendingClients[k].client;
      suspendingClients := Without(suspendingClients, k);
      counts := counts - {c};
      ResumeAfterLast();
    }

    /** The end of ScreenSaverFreeSuspend, and all it does for a record that is not listed. */
    method ResumeAfterLast()
      requires Represents(suspendingClients, counts) && (counts != map[] ==> screenSaverSuspended)
      modifies this`screenSaverSuspended
      ensures Valid()
    {
      if screenSaverSuspended && suspendingClients == [] {
        screenSaverSuspended := false;
        assert counts == map[];
      } else if suspendingClients != [] {
        assert suspendingClients[0].client in counts;
      }
    }

    /**
     ProcScreenSaverSuspend; `granted` and `added` tell whether the new record gets its memory and
     resource; a refused resource frees the record.
     */
    method Suspend(c: nat, suspend: bool, resource: nat, granted: bool, added: bool) returns (status: Status)
      requires Valid()
      modifies this
      ensures Valid()
      ensures status == BadAlloc <==> suspend && c !in old(counts) && !(granted && added)
      ensures counts == if status == Success then Request(old(counts), c, suspend) else old(counts)
      ensures screenSaverSuspended <==> counts != map[]
    {
      var k := FindClient(c);
      if k < |suspendingClients| {
        var count := suspendingClients[k].count;
        if suspend {
          SetCount(k, count + 1);
        } else if count - 1 == 0 {
          FreeSuspend(k);
        } else {
          SetCount(k, count - 1);
        }
        return Success;
      }
      if !suspend {
        return Success;
      }
      if !granted {
        return BadAlloc;
      }
      if !added {
        ResumeAfterLast();
        return BadAlloc;
      }
      AppendRecord(suspendingClients, counts, Suspension(c, resource, 1));
      suspendingClients := suspendingClients + [Suspension(c, resource, 1)];
      counts := counts[c := 1];
      if !screenSaverSuspended {
        screenSaverSuspended := true;
      }
      assert c in counts;
      return Success;
    }

    method SetCount(k: nat, count: int)
      requires Valid() && k < |suspendingClients| && count > 0
      modifies this`suspendingClients, this`counts
      ensures Valid() && counts == old(counts)[old(suspendingClients)[k].client := count]
    {
      UpdateRecord(suspendingClients, counts, k, count);
      ghost var c := suspendingClients[k].client;
      suspendingClients := suspendingClients[k := suspendingClients[k].(count := count)];
      counts := counts[c := count];
      assert c in counts;
    }

    /** A client disconnects: its suspension resource is freed. */
    method Disconnect(c: nat)
      requires Valid()
      modifies this
      ensures Valid() && counts == old(counts) - {c}
    {
      var k := FindClient(c);
      if k < |suspendingClients| {
        assert c in counts;
        FreeSuspend(k);
      } else {
        assert counts - {c} == counts;
      }
    }

    /** Events served one after the other leave the map they lead to, refused requests included. */
    method Serve(es: seq<Event>)
      requires Valid()
      modifies this
      ensures Valid() && counts == Replay(old(counts), es)
    {
      var i := 0;
      while i < |es|
        invariant i <= |es| && Valid()
        invariant Replay(counts, es[i..]) == Replay(old(counts), es)
      {
        assert es[i..][1..] == es[i + 1..];
        match es[i] {
          case Requested(c, suspend, resource, granted, added) =>
            var _ := Suspend(c, suspend, resource, granted, added);
          case Disconnected(c) => Disconnect(c);
        }
        i := i + 1;
      }
    }
  }

  // ---------- runs ----------

  /** One client's count after an event: its own requests raise and lower it, never below zero. */
  function Tally(c: nat, n: nat, e: Event): nat {
    if e.c != c then n
    else
      match e
      case Disconnected(_) => 0
      case Requested(_, suspend, _, granted, added) =>
        if !suspend then (if n > 0 then n - 1 else 0)
        else if n == 0 && !(granted && added) then 0
        else n + 1
  }

  /** The client's own requests since it last disconnected, as a count. */
  function Balance(c: nat, es: seq<Event>, start: nat): nat
    decreases |es|
  {
    if es == [] then start else Balance(c, es[1..], Tally(c, start, es[0]))
  }

  /** Clients do not disturb each other: each count is what the client's own events add up to. */
  lemma {:induction false} ClientsAreIndependent(m: map<nat, int>, es: seq<Event>, c: nat)
    requires forall d :: d in m ==> m[d] > 0
    ensures var n := Balance(c, es, if c in m then m[c] else 0);
            var last := Replay(m, es);
            (c in last <==> n > 0) && (c in last ==> last[c] == n)
    decreases |es|
  {
    if es != [] {
      ClientsAreIndependent(After(m, es[0]), es[1..], c);
    }
  }
}
