/**
 Shared-memory segments: descriptors are reached from resources and from
 pixmaps, counted by those holders, and kept in one list.
 */
module ShmSegments {
  import opened Wrappers

  datatype Desc = Desc(shmid: nat, isFd: bool, writable: bool, size: nat, refcnt: int)

  datatype Pixmap = Pixmap(desc: nat, offset: nat, bytes: nat)

  datatype Status = Success | BadIDChoice | BadAccess | BadAlloc | BadValue | BadShmSeg

  /** The list (head first), the descriptors by address, and who holds them. */
  datatype Segs = Segs(list: seq<nat>, descs: map<nat, Desc>, resources: map<nat, nat>, pixmaps: map<nat, Pixmap>,
                       nextDesc: nat)

  // ---------- holders ----------

  /** The resources that hold descriptor d. */
  function ResourcesOn(resources: map<nat, nat>, d: nat): set<nat> {
    set x | x in resources && resources[x] == d
  }

  function PixmapsOn(pixmaps: map<nat, Pixmap>, d: nat): set<nat> {
    set p | p in pixmaps && pixmaps[p].desc == d
  }

  function Holders(s: Segs, d: nat): nat {
    |ResourcesOn(s.resources, d)| + |PixmapsOn(s.pixmaps, d)|
  }

  lemma {:induction false} OneMoreResource(resources: map<nat, nat>, x: nat, d: nat, e: nat)
    requires x !in resources
    ensures |ResourcesOn(resources[x := d], e)| == |ResourcesOn(resources, e)| + if e == d then 1 else 0
  {
    assert ResourcesOn(resources[x := d], e) == ResourcesOn(resources, e) + if e == d then {x} else {};
  }

  lemma {:induction false} OneMorePixmap(pixmaps: map<nat, Pixmap>, p: nat, m: Pixmap, e: nat)
    requires p !in pixmaps
    ensures |PixmapsOn(pixmaps[p := m], e)| == |PixmapsOn(pixmaps, e)| + if e == m.desc then 1 else 0
  {
    assert PixmapsOn(pixmaps[p := m], e) == PixmapsOn(pixmaps, e) + if e == m.desc then {p} else {};
  }

  // ---------- the invariant ----------

  predicate NoRepeats(list: seq<nat>) {
    forall i, j :: 0 <= i < j < |list| ==> list[i] != list[j]
  }

  /** Two SysV descriptors have different shmids. */
  ghost predicate OnePerShmid(descs: map<nat, Desc>) {
    forall d, e :: d in descs && e in descs && d != e && !descs[d].isFd && !descs[e].isFd ==>
        descs[d].shmid != descs[e].shmid
  }

  /** The list holds exactly the descriptors, once each; at most one SysV descriptor per shmid. */
  ghost predicate Listed(s: Segs) {
    && NoRepeats(s.list)
    && (forall d :: d in s.list <==> d in s.descs)
    && (forall d :: d in s.descs ==> d < s.nextDesc)
    && OnePerShmid(s.descs)
  }

  /** Holders point at descriptors, and a pixmap lies inside its segment. */
  ghost predicate Pointing(s: Segs) {
    && (forall x :: x in s.resources ==> s.resources[x] in s.descs)
    && (forall p :: p in s.pixmaps ==>
         (var m := s.pixmaps[p]; m.desc in s.descs && m.offset + m.bytes <= s.descs[m.desc].size))
  }

  /** Counts equal holders, except for one reference to `extra` that no holder stands for yet. */
  ghost predicate Counted(s: Segs, extra: Option<nat>) {
    forall d :: d in s.descs ==> s.descs[d].refcnt == Holders(s, d) + (if extra == Some(d) then 1 else 0) > 0
  }

  ghost predicate Valid(s: Segs) {
    Listed(s) && Pointing(s) && Counted(s, None)
  }

  ghost predicate ValidPlus(s: Segs, d: nat) {
    d in s.descs && Listed(s) && Pointing(s) && Counted(s, Some(d))
  }

  // ---------- steps ----------

  function Recount(s: Segs, d: nat, delta: int): Segs
    requires d in s.descs
  {
    s.(descs := s.descs[d := s.descs[d].(refcnt := s.descs[d].refcnt + delta)])
  }

  function Unlink(list: seq<nat>, d: nat): seq<nat> {
    if list == [] then [] else if list[0] == d then list[1..] else [list[0]] + Unlink(list[1..], d)
  }

  lemma {:induction false} UnlinkAt(list: seq<nat>, d: nat, k: nat)
    requires k < |list| && list[k] == d && d !in list[..k]
    ensures Unlink(list, d) == list[..k] + list[k + 1..]
  {
    if k > 0 {
      assert list[..k] == [list[0]] + list[1..][..k - 1];
      UnlinkAt(list[1..], d, k - 1);
    }
  }

  /** ShmDetachSegment: drops one reference; the last one unlinks and frees the descriptor. */
  function Drop(s: Segs, d: nat): Segs
    requires d in s.descs
  {
    var t := Recount(s, d, -1);
    if t.descs[d].refcnt != 0 then t else t.(list := Unlink(t.list, d), descs := t.descs - {d})
  }

  function LinkNew(s: Segs, desc: Desc): Segs {
    s.(list := [s.nextDesc] + s.list, descs := s.descs[s.nextDesc := desc], nextDesc := s.nextDesc + 1)
  }

  function Hold(s: Segs, xid: nat, d: nat): Segs {
    s.(resources := s.resources[xid := d])
  }

  function Release(s: Segs, xid: nat): Segs {
    s.(resources := s.resources - {xid})
  }

  function HoldPixmap(s: Segs, pid: nat, m: Pixmap): Segs {
    s.(pixmaps := s.pixmaps[pid := m])
  }

  function ReleasePixmap(s: Segs, pid: nat): Segs {
    s.(pixmaps := s.pixmaps - {pid})
  }

  lemma {:induction false} RecountKeepsShape(s: Segs, d: nat, delta: int)
    requires Listed(s) && Pointing(s) && d in s.descs
    ensures Listed(Recount(s, d, delta)) && Pointing(Recount(s, d, delta))
  {
  }

  lemma {:induction false} RecountCounts(s: Segs, d: nat, delta: int)
    requires d in s.descs
    ensures Counted(s, None) && delta == 1 ==> Counted(Recount(s, d, delta), Some(d))
    ensures Counted(s, Some(d)) && delta == -1 && Holders(s, d) > 0 ==> Counted(Recount(s, d, delta), None)
  {
    var t := Recount(s, d, delta);
    assert forall e :: Holders(t, e) == Holders(s, e);
  }

  lemma {:induction false} AddRefKeeps(s: Segs, d: nat)
    requires Valid(s) && d in s.descs
    ensures ValidPlus(Recount(s, d, 1), d)
    ensures Drop(Recount(s, d, 1), d) == s
  {
    RecountKeepsShape(s, d, 1);
    RecountCounts(s, d, 1);
    RecountBack(s, d);
  }

  lemma {:induction false} RecountBack(s: Segs, d: nat)
    requires d in s.descs && s.descs[d].refcnt != 0
    ensures Drop(Recount(s, d, 1), d) == s
  {
    assert Recount(Recount(s, d, 1), d, -1).descs == s.descs;
  }

  lemma {:induction false} LinkNewListed(s: Segs, desc: Desc)
    requires Listed(s)
    requires !desc.isFd ==> forall e :: e in s.descs ==> s.descs[e].isFd || s.descs[e].shmid != desc.shmid
    ensures Listed(LinkNew(s, desc))
  {
    var t := LinkNew(s, desc);
    assert forall e :: e in t.list <==> e == s.nextDesc || e in s.list;
    assert NoRepeats(t.list) by {
      assert forall i :: 0 <= i < |s.list| ==> s.list[i] in s.list;
    }
  }

  lemma {:induction false} LinkNewCounted(s: Segs, desc: Desc)
    requires Valid(s) && desc.refcnt == 1
    ensures Counted(LinkNew(s, desc), Some(s.nextDesc)) && Pointing(LinkNew(s, desc))
  {
    var t, d := LinkNew(s, desc), s.nextDesc;
    assert ResourcesOn(s.resources, d) == {} && PixmapsOn(s.pixmaps, d) == {};
    assert forall e :: Holders(t, e) == Holders(s, e);
  }

  lemma {:induction false} LinkNewThenDrop(s: Segs, desc: Desc)
    requires desc.refcnt == 1 && s.nextDesc !in s.descs
    ensures Drop(LinkNew(s, desc), s.nextDesc) == s.(nextDesc := s.nextDesc + 1)
  {
    var t, d := LinkNew(s, desc), s.nextDesc;
    assert t.list[1..] == s.list;
    assert Recount(t, d, -1).descs - {d} == s.descs;
  }

  lemma {:induction false} LinkNewKeeps(s: Segs, desc: Desc)
    requires Valid(s) && desc.refcnt == 1
    requires !desc.isFd ==> forall e :: e in s.descs ==> s.descs[e].isFd || s.descs[e].shmid != desc.shmid
    ensures ValidPlus(LinkNew(s, desc), s.nextDesc)
    ensures Drop(LinkNew(s, desc), s.nextDesc) == s.(nextDesc := s.nextDesc + 1)
  {
    LinkNewListed(s, desc);
    LinkNewCounted(s, desc);
    LinkNewThenDrop(s, desc);
  }

  lemma {:induction false} HoldKeeps(s: Segs, xid: nat, d: nat)
    requires ValidPlus(s, d) && xid !in s.resources
    ensures Valid(Hold(s, xid, d))
  {
    var t := Hold(s, xid, d);
    forall e | e in t.descs
      ensures t.descs[e].refcnt == Holders(t, e) > 0
    {
      OneMoreResource(s.resources, xid, d, e);
    }
  }

  lemma {:induction false} ReleaseKeeps(s: Segs, xid: nat)
    requires Valid(s) && xid in s.resources
    ensures ValidPlus(Release(s, xid), s.resources[xid])
  {
    ReleaseCounts(s, xid);
  }

  lemma {:induction false} ReleaseCounts(s: Segs, xid: nat)
    requires Counted(s, None) && xid in s.resources
    ensures Counted(Release(s, xid), Some(s.resources[xid]))
  {
    var t, d := Release(s, xid), s.resources[xid];
    assert t.resources[xid := d] == s.resources;
    forall e | e in t.descs
      ensures t.descs[e].refcnt == Holders(t, e) + (if e == d then 1 else 0) > 0
    {
      OneMoreResource(t.resources, xid, d, e);
    }
  }

  lemma {:induction false} HoldPixmapKeeps(s: Segs, pid: nat, m: Pixmap)
    requires ValidPlus(s, m.desc) && pid !in s.pixmaps && m.offset + m.bytes <= s.descs[m.desc].size
    ensures Valid(HoldPixmap(s, pid, m))
  {
    var t := HoldPixmap(s, pid, m);
    forall e | e in t.descs
      ensures t.descs[e].refcnt == Holders(t, e) > 0
    {
      OneMorePixmap(s.pixmaps, pid, m, e);
    }
  }

  lemma {:induction false} ReleasePixmapKeeps(s: Segs, pid: nat)
    requires Valid(s) && pid in s.pixmaps
    ensures ValidPlus(ReleasePixmap(s, pid), s.pixmaps[pid].desc)
  {
    ReleasePixmapCounts(s, pid);
  }

  lemma {:induction false} ReleasePixmapCounts(s: Segs, pid: nat)
    requires Counted(s, None) && pid in s.pixmaps
    ensures Counted(ReleasePixmap(s, pid), Some(s.pixmaps[pid].desc))
  {
    var t, m := ReleasePixmap(s, pid), s.pixmaps[pid];
    assert t.pixmaps[pid := m] == s.pixmaps;
    forall e | e in t.descs
      ensures t.descs[e].refcnt == Holders(t, e) + (if e == m.desc then 1 else 0) > 0
    {
      OneMorePixmap(t.pixmaps, pid, m, e);
    }
  }

  lemma {:induction false} UnlinkMembers(list: seq<nat>, d: nat, e: nat)
    requires NoRepeats(list) && d in list
    ensures e in Unlink(list, d) <==> e in list && e != d
  {
    var rest := list[1..];
    assert list == [list[0]] + rest;
    if list[0] != d {
      UnlinkMembers(rest, d, e);
    } else {
      assert forall i :: 0 <= i < |rest| ==> rest[i] == list[i + 1];
    }
  }

  lemma {:induction false} PrependNoRepeats(x: nat, list: seq<nat>)
    requires NoRepeats(list) && x !in list
    ensures NoRepeats([x] + list)
  {
    assert forall i :: 0 <= i < |list| ==> list[i] in list;
  }

  lemma {:induction false} RestNoRepeats(list: seq<nat>)
    requires NoRepeats(list) && list != []
    ensures NoRepeats(list[1..]) && list[0] !in list[1..]
  {
    assert forall i :: 0 <= i < |list| - 1 ==> list[1..][i] == list[i + 1];
  }

  lemma {:induction false} UnlinkNoRepeats(list: seq<nat>, d: nat)
    requires NoRepeats(list) && d in list
    ensures NoRepeats(Unlink(list, d))
  {
    RestNoRepeats(list);
    if list[0] != d {
      UnlinkNoRepeats(list[1..], d);
      UnlinkMembers(list[1..], d, list[0]);
      PrependNoRepeats(list[0], Unlink(list[1..], d));
    }
  }

  lemma {:induction false} NobodyHolds(s: Segs, d: nat)
    requires Holders(s, d) == 0
    ensures forall x :: x in s.resources ==> s.resources[x] != d
    ensures forall p :: p in s.pixmaps ==> s.pixmaps[p].desc != d
  {
    assert forall x :: x in s.resources && s.resources[x] == d ==> x in ResourcesOn(s.resources, d);
    assert forall p :: p in s.pixmaps && s.pixmaps[p].desc == d ==> p in PixmapsOn(s.pixmaps, d);
  }

  function Freed(s: Segs, d: nat): Segs {
    s.(list := Unlink(s.list, d), descs := s.descs - {d})
  }

  lemma {:induction false} FreeKeeps(s: Segs, d: nat)
    requires Listed(s) && Pointing(s) && d in s.descs && Holders(s, d) == 0
    ensures Listed(Freed(s, d)) && Pointing(Freed(s, d))
  {
    NobodyHolds(s, d);
    UnlinkNoRepeats(s.list, d);
    forall e
      ensures e in Unlink(s.list, d) <==> e in s.descs - {d}
    {
      UnlinkMembers(s.list, d, e);
    }
  }

  lemma {:induction false} FreeCounts(s: Segs, d: nat)
    requires Counted(s, Some(d)) && d in s.descs && Holders(s, d) == 0
    ensures Counted(Freed(s, d), None)
  {
    assert forall e :: Holders(Freed(s, d), e) == Holders(s, e);
  }

  /** A drop frees the descriptor exactly when nobody holds it. */
  lemma {:induction false} DropFrees(s: Segs, d: nat)
    requires d in s.descs && s.descs[d].refcnt == Holders(s, d) + 1
    ensures Drop(s, d) == if Holders(s, d) > 0 then Recount(s, d, -1) else Freed(s, d)
  {
    assert Recount(s, d, -1).descs - {d} == s.descs - {d};
  }

  /** Dropping the reference nobody stands for restores the invariant. */
  lemma {:induction false} DropKeeps(s: Segs, d: nat)
    requires ValidPlus(s, d)
    ensures Valid(Drop(s, d))
  {
    DropFrees(s, d);
    if Holders(s, d) > 0 {
      RecountKeepsShape(s, d, -1);
      RecountCounts(s, d, -1);
    } else {
      FreeKeeps(s, d);
      FreeCounts(s, d);
    }
  }

  // ---------- requests ----------

  function FindShared(s: Segs, list: seq<nat>, shmid: nat): (r: Option<nat>)
    requires forall k :: 0 <= k < |list| ==> list[k] in s.descs
    ensures r.Some? ==> r.value in s.descs && !s.descs[r.value].isFd && s.descs[r.value].shmid == shmid
    ensures r.None? ==> forall k :: 0 <= k < |list| ==> s.descs[list[k]].isFd || s.descs[list[k]].shmid != shmid
  {
    if list == [] then None
    else if !s.descs[list[0]].isFd && s.descs[list[0]].shmid == shmid then Some(list[0])
    else FindShared(s, list[1..], shmid)
  }

  /** AddResource for a segment: a failure runs the segment's delete function. */
  function AddSegment(s: Segs, xid: nat, d: nat, added: bool): (Segs, Status)
    requires d in s.descs
  {
    if added then (Hold(s, xid, d), Success) else (Drop(s, d), BadAlloc)
  }

  datatype Request =
    | Attach(xid: nat, shmid: nat, readOnly: bool, granted: bool, mapped: Option<nat>, added: bool)
    | AttachFd(xid: nat, readOnly: bool, mapped: Option<nat>, added: bool)
    | Detach(xid: nat)
    | CreatePixmap(pid: nat, xid: nat, offset: nat, bytes: nat, created: bool, permitted: bool, added: bool)
    | DestroyPixmap(pid: nat)

  /** What the segment checks of CreatePixmap say before anything is made. */
  function PixmapCheck(desc: Desc, offset: nat, bytes: nat, created: bool, permitted: bool): Status {
    if offset % 4 != 0 || offset > desc.size then BadValue
    else if !desc.writable || offset + bytes > desc.size then BadAccess
    else if !created then BadAlloc
    else if !permitted then BadAccess
    else Success
  }

  function DoAttach(s: Segs, xid: nat, shmid: nat, readOnly: bool, granted: bool, mapped: Option<nat>, added: bool)
    : (Segs, Status)
    requires Valid(s)
  {
    if xid in s.resources then (s, BadIDChoice)
    else
      match FindShared(s, s.list, shmid)
      case Some(d) =>
        if !readOnly && !s.descs[d].writable then (s, BadAccess)
        else AddSegment(Recount(s, d, 1), xid, d, added)
      case None =>
        if !granted then (s, BadAlloc)
        else if mapped.None? then (s, BadAccess)
        else AddSegment(LinkNew(s, Desc(shmid, false, !readOnly, mapped.value, 1)), xid, s.nextDesc, added)
  }

  function DoAttachFd(s: Segs, xid: nat, readOnly: bool, mapped: Option<nat>, added: bool): (Segs, Status) {
    if xid in s.resources then (s, BadIDChoice)
    else if mapped.None? then (s, BadAccess)
    else AddSegment(LinkNew(s, Desc(0, true, !readOnly, mapped.value, 1)), xid, s.nextDesc, added)
  }

  function DoDetach(s: Segs, xid: nat): (Segs, Status)
    requires Valid(s)
  {
    if xid !in s.resources then (s, BadShmSeg) else (Drop(Release(s, xid), s.resources[xid]), Success)
  }

  function DoCreatePixmap(
    s: Segs, pid: nat, xid: nat, offset: nat, bytes: nat, created: bool, permitted: bool, added: bool): (Segs, Status)
    requires Valid(s)
  {
    if pid in s.pixmaps then (s, BadIDChoice)
    else if xid !in s.resources then (s, BadShmSeg)
    else
      var d := s.resources[xid];
      var check := PixmapCheck(s.descs[d], offset, bytes, created, permitted);
      if check != Success then (s, check)
      else
        var held := HoldPixmap(Recount(s, d, 1), pid, Pixmap(d, offset, bytes));
        if added then (held, Success) else (Drop(ReleasePixmap(held, pid), d), BadAlloc)
  }

  function DoDestroyPixmap(s: Segs, pid: nat): Segs
    requires Valid(s)
  {
    if pid !in s.pixmaps then s else Drop(ReleasePixmap(s, pid), s.pixmaps[pid].desc)
  }

  /** The outcome of allocations, mappings and access checks comes with the request. */
  function Handle(s: Segs, q: Request): (Segs, Status)
    requires Valid(s)
  {
    match q
    case Attach(xid, shmid, readOnly, granted, mapped, added) =>
      DoAttach(s, xid, shmid, readOnly, granted, mapped, added)
    case AttachFd(xid, readOnly, mapped, added) => DoAttachFd(s, xid, readOnly, mapped, added)
    case Detach(xid) => DoDetach(s, xid)
    case CreatePixmap(pid, xid, offset, bytes, created, permitted, added) =>
      DoCreatePixmap(s, pid, xid, offset, bytes, created, permitted, added)
    case DestroyPixmap(pid) => (DoDestroyPixmap(s, pid), Success)
  }

  /** `r` is valid, and equal to `s` but for the supply of addresses when the request failed. */
  ghost predicate Proper(s: Segs, r: (Segs, Status)) {
    Valid(r.0) && (r.1 != Success ==> r.0 == s.(nextDesc := r.0.nextDesc))
  }

  lemma {:induction false} AddSegmentKeeps(s: Segs, t: Segs, xid: nat, d: nat, added: bool)
    requires ValidPlus(t, d) && xid !in t.resources && Drop(t, d) == s.(nextDesc := t.nextDesc)
    ensures Proper(s, AddSegment(t, xid, d, added))
  {
    if added {
      HoldKeeps(t, xid, d);
    } else {
      DropKeeps(t, d);
    }
  }

  lemma {:induction false} AttachKeeps(
    s: Segs, xid: nat, shmid: nat, readOnly: bool, granted: bool, mapped: Option<nat>, added: bool)
    requires Valid(s)
    ensures Proper(s, DoAttach(s, xid, shmid, readOnly, granted, mapped, added))
  {
    var found := FindShared(s, s.list, shmid);
    if xid in s.resources {
    } else if found.Some? {
      ShareKeeps(s, xid, found.value, added);
    } else if granted && mapped.Some? {
      NotSharedNotListed(s, shmid);
      LinkKeeps(s, xid, Desc(shmid, false, !readOnly, mapped.value, 1), added);
    }
  }

  /** One more holder of a descriptor that is already there. */
  lemma {:induction false} ShareKeeps(s: Segs, xid: nat, d: nat, added: bool)
    requires Valid(s) && xid !in s.resources && d in s.descs
    ensures Proper(s, AddSegment(Recount(s, d, 1), xid, d, added))
  {
    AddRefKeeps(s, d);
    AddSegmentKeeps(s, Recount(s, d, 1), xid, d, added);
  }

  /** The first holder of a new descriptor. */
  lemma {:induction false} LinkKeeps(s: Segs, xid: nat, desc: Desc, added: bool)
    requires Valid(s) && xid !in s.resources && desc.refcnt == 1
    requires !desc.isFd ==> forall e :: e in s.descs ==> s.descs[e].isFd || s.descs[e].shmid != desc.shmid
    ensures Proper(s, AddSegment(LinkNew(s, desc), xid, s.nextDesc, added))
  {
    LinkNewKeeps(s, desc);
    AddSegmentKeeps(s, LinkNew(s, desc), xid, s.nextDesc, added);
  }

  lemma {:induction false} NotSharedNotListed(s: Segs, shmid: nat)
    requires Listed(s) && FindShared(s, s.list, shmid).None?
    ensures forall e :: e in s.descs ==> s.descs[e].isFd || s.descs[e].shmid != shmid
  {
    forall e | e in s.descs
      ensures s.descs[e].isFd || s.descs[e].shmid != shmid
    {
      assert e in s.list;
    }
  }

  lemma {:induction false} AttachFdKeeps(s: Segs, xid: nat, readOnly: bool, mapped: Option<nat>, added: bool)
    requires Valid(s)
    ensures Proper(s, DoAttachFd(s, xid, readOnly, mapped, added))
  {
    if xid !in s.resources && mapped.Some? {
      LinkKeeps(s, xid, Desc(0, true, !readOnly, mapped.value, 1), added);
    }
  }

  lemma {:induction false} DetachKeeps(s: Segs, xid: nat)
    requires Valid(s)
    ensures Proper(s, DoDetach(s, xid))
  {
    if xid in s.resources {
      ReleaseKeeps(s, xid);
      DropKeeps(Release(s, xid), s.resources[xid]);
    }
  }

  lemma {:induction false} DestroyPixmapKeeps(s: Segs, pid: nat)
    requires Valid(s)
    ensures Valid(DoDestroyPixmap(s, pid))
  {
    if pid in s.pixmaps {
      ReleasePixmapKeeps(s, pid);
      DropKeeps(ReleasePixmap(s, pid), s.pixmaps[pid].desc);
    }
  }

  lemma {:induction false} HoldThenRelease(s: Segs, pid: nat, m: Pixmap)
    requires pid !in s.pixmaps
    ensures ReleasePixmap(HoldPixmap(s, pid, m), pid) == s
  {
    assert s.pixmaps[pid := m] - {pid} == s.pixmaps;
  }

  lemma {:induction false} CreatePixmapKeeps(
    s: Segs, pid: nat, xid: nat, offset: nat, bytes: nat, created: bool, permitted: bool, added: bool)
    requires Valid(s)
    ensures Proper(s, DoCreatePixmap(s, pid, xid, offset, bytes, created, permitted, added))
  {
    if pid !in s.pixmaps && xid in s.resources {
      var d := s.resources[xid];
      if PixmapCheck(s.descs[d], offset, bytes, created, permitted) == Success {
        AddRefKeeps(s, d);
        HoldPixmapKeeps(Recount(s, d, 1), pid, Pixmap(d, offset, bytes));
        HoldThenRelease(Recount(s, d, 1), pid, Pixmap(d, offset, bytes));
      }
    }
  }

  /** Every request keeps the invariant; one that fails changes nothing but the supply of addresses. */
  lemma {:induction false} HandleKeeps(s: Segs, q: Request)
    requires Valid(s)
    ensures Proper(s, Handle(s, q))
  {
    var r := Handle(s, q);
    match q
    case Attach(xid, shmid, readOnly, granted, mapped, added) =>
      assert r == DoAttach(s, xid, shmid, readOnly, granted, mapped, added);
      AttachKeeps(s, xid, shmid, readOnly, granted, mapped, added);
    case AttachFd(xid, readOnly, mapped, added) =>
      assert r == DoAttachFd(s, xid, readOnly, mapped, added);
      AttachFdKeeps(s, xid, readOnly, mapped, added);
    case Detach(xid) =>
      assert r == DoDetach(s, xid);
      DetachKeeps(s, xid);
    case CreatePixmap(pid, xid, offset, bytes, created, permitted, added) =>
      assert r == DoCreatePixmap(s, pid, xid, offset, bytes, created, permitted, added);
      CreatePixmapKeeps(s, pid, xid, offset, bytes, created, permitted, added);
    case DestroyPixmap(pid) =>
      assert r == (DoDestroyPixmap(s, pid), Success);
      DestroyPixmapKeeps(s, pid);
  }

  function Serve(s: Segs, qs: seq<Request>): (t: Segs)
    requires Valid(s)
    ensures Valid(t)
    decreases |qs|
  {
    if qs == [] then s
    else
      HandleKeeps(s, qs[0]);
      Serve(Handle(s, qs[0]).0, qs[1..])
  }

  // ---------- when a request succeeds, and what it does ----------

  /** A SysV segment of that shmid is attached already. */
  predicate SharedBy(s: Segs, d: nat, shmid: nat) {
    d in s.descs && !s.descs[d].isFd && s.descs[d].shmid == shmid
  }

  lemma {:induction false} SharedExactly(s: Segs, shmid: nat, d: nat)
    requires Listed(s)
    ensures FindShared(s, s.list, shmid) == Some(d) <==> SharedBy(s, d, shmid)
  {
    var found := FindShared(s, s.list, shmid);
    if SharedBy(s, d, shmid) {
      assert d in s.list;
    }
  }

  /** Only descriptor `d` differs, as `desc` says. */
  ghost predicate OnlyDesc(before: map<nat, Desc>, after: map<nat, Desc>, d: nat, desc: Desc) {
    after == before[d := desc]
  }

  /** An attach to a segment that is there succeeds if it may be written as asked, and adds a holder to it. */
  lemma {:induction false} AttachShares(
    s: Segs, xid: nat, shmid: nat, readOnly: bool, granted: bool, mapped: Option<nat>, added: bool, d: nat)
    requires Valid(s) && SharedBy(s, d, shmid)
    ensures var (t, status) := DoAttach(s, xid, shmid, readOnly, granted, mapped, added);
            && status == (if xid in s.resources then BadIDChoice
                          else if !readOnly && !s.descs[d].writable then BadAccess
                          else if !added then BadAlloc
                          else Success)
            && (status == Success ==>
                 && t.resources == s.resources[xid := d] && t.pixmaps == s.pixmaps && t.list == s.list
                 && OnlyDesc(s.descs, t.descs, d, s.descs[d].(refcnt := s.descs[d].refcnt + 1)))
  {
    SharedExactly(s, shmid, d);
  }

  /** An attach to a new segment succeeds if it can be had and mapped, and puts it at the head of the list. */
  lemma {:induction false} AttachCreates(
    s: Segs, xid: nat, shmid: nat, readOnly: bool, granted: bool, mapped: Option<nat>, added: bool)
    requires Valid(s) && forall d :: !SharedBy(s, d, shmid)
    ensures var (t, status) := DoAttach(s, xid, shmid, readOnly, granted, mapped, added);
            && status == (if xid in s.resources then BadIDChoice
                          else if !granted then BadAlloc
                          else if mapped.None? then BadAccess
                          else if !added then BadAlloc
                          else Success)
            && (status == Success ==>
                 var d := s.nextDesc;
                 && t.resources == s.resources[xid := d] && t.pixmaps == s.pixmaps && t.list == [d] + s.list
                 && OnlyDesc(s.descs, t.descs, d, Desc(shmid, false, !readOnly, mapped.value, 1)))
  {
    var found := FindShared(s, s.list, shmid);
    if found.Some? {
      assert SharedBy(s, found.value, shmid);
    }
  }

  /** A segment given by a file descriptor is always a new one. */
  lemma {:induction false} AttachFdCreates(s: Segs, xid: nat, readOnly: bool, mapped: Option<nat>, added: bool)
    requires Valid(s)
    ensures var (t, status) := DoAttachFd(s, xid, readOnly, mapped, added);
            && status == (if xid in s.resources then BadIDChoice
                          else if mapped.None? then BadAccess
                          else if !added then BadAlloc
                          else Success)
            && (status == Success ==>
                 var d := s.nextDesc;
                 && t.resources == s.resources[xid := d] && t.pixmaps == s.pixmaps && t.list == [d] + s.list
                 && OnlyDesc(s.descs, t.descs, d, Desc(0, true, !readOnly, mapped.value, 1)))
  {
  }

  /** Dropping a reference counts down; the last one takes the descriptor out of the list, and only it. */
  ghost predicate Fewer(s: Segs, t: Segs, d: nat)
    requires d in s.descs
  {
    if s.descs[d].refcnt == 1
    then t.descs == s.descs - {d} && (forall e :: e in t.list <==> e in s.list && e != d)
    else t.list == s.list && OnlyDesc(s.descs, t.descs, d, s.descs[d].(refcnt := s.descs[d].refcnt - 1))
  }

  lemma {:induction false} DropExactly(s: Segs, d: nat)
    requires Listed(s) && d in s.descs
    ensures Fewer(s, Drop(s, d), d)
    ensures Drop(s, d).resources == s.resources && Drop(s, d).pixmaps == s.pixmaps
  {
    if s.descs[d].refcnt == 1 {
      assert Recount(s, d, -1).descs - {d} == s.descs - {d};
      forall e
        ensures e in Unlink(s.list, d) <==> e in s.list && e != d
      {
        UnlinkMembers(s.list, d, e);
      }
    }
  }

  /** A detach succeeds exactly for an attached segment, and takes its holder away. */
  lemma {:induction false} DetachExactly(s: Segs, xid: nat)
    requires Valid(s)
    ensures var (t, status) := DoDetach(s, xid);
            && status == (if xid in s.resources then Success else BadShmSeg)
            && (status == Success ==>
                 t.resources == s.resources - {xid} && t.pixmaps == s.pixmaps && Fewer(s, t, s.resources[xid]))
  {
    if xid in s.resources {
      DropExactly(Release(s, xid), s.resources[xid]);
    }
  }

  /** A pixmap is made exactly when it lies, word-aligned, in a writable segment and everything it needs is granted. */
  lemma {:induction false} CreatePixmapExactly(
    s: Segs, pid: nat, xid: nat, offset: nat, bytes: nat, created: bool, permitted: bool, added: bool)
    requires Valid(s)
    ensures var (t, status) := DoCreatePixmap(s, pid, xid, offset, bytes, created, permitted, added);
            && (status == Success <==>
                 && pid !in s.pixmaps && xid in s.resources && offset % 4 == 0
                 && s.descs[s.resources[xid]].writable && offset + bytes <= s.descs[s.resources[xid]].size
                 && created && permitted && added)
            && (status == BadIDChoice <==> pid in s.pixmaps)
            && (status == BadShmSeg <==> pid !in s.pixmaps && xid !in s.resources)
            && (status == BadValue <==> pid !in s.pixmaps && xid in s.resources
                                        && (offset % 4 != 0 || offset > s.descs[s.resources[xid]].size))
            && (status == Success ==>
                 var d := s.resources[xid];
                 && t.pixmaps == s.pixmaps[pid := Pixmap(d, offset, bytes)]
                 && t.resources == s.resources && t.list == s.list
                 && OnlyDesc(s.descs, t.descs, d, s.descs[d].(refcnt := s.descs[d].refcnt + 1)))
  {
  }

  /** Destroying a pixmap takes its reference to the segment away, and nothing else. */
  lemma {:induction false} DestroyPixmapExactly(s: Segs, pid: nat)
    requires Valid(s)
    ensures var t := DoDestroyPixmap(s, pid);
            if pid in s.pixmaps
            then t.pixmaps == s.pixmaps - {pid} && t.resources == s.resources && Fewer(s, t, s.pixmaps[pid].desc)
            else t == s
  {
    if pid in s.pixmaps {
      DropExactly(ReleasePixmap(s, pid), s.pixmaps[pid].desc);
    }
  }

  // ---------- the server, updating its list and counts in place ----------

  class ShmServer {
    var list: seq<nat>
    var descs: map<nat, Desc>
    var resources: map<nat, nat>
    var pixmaps: map<nat, Pixmap>
    var nextDesc: nat

    ghost function View(): Segs
      reads this
    {
      Segs(list, descs, resources, pixmaps, nextDesc)
    }

    constructor ()
      ensures View() == Segs([], map[], map[], map[], 0) && Valid(View())
    {
      list, descs, resources, pixmaps, nextDesc := [], map[], map[], map[], 0;
    }

    /** ShmDetachSegment; the unlink loop always finds its target. */
    method DetachSegment(d: nat)
      requires ValidPlus(View(), d)
      modifies this`list, this`descs
      ensures View() == Drop(old(View()), d) && Valid(View())
    {
      DropKeeps(View(), d);
      descs := descs[d := descs[d].(refcnt := descs[d].refcnt - 1)];
      if descs[d].refcnt != 0 {
        return;
      }
      UnlinkFromList(d);
      descs := descs - {d};
    }

    method UnlinkFromList(d: nat)
      requires d in list
      modifies this`list
      ensures list == Unlink(old(list), d)
    {
      var prev := 0;
      while list[prev] != d
        invariant prev < |list| && d in list[prev..] && d !in list[..prev] && list == old(list)
        decreases |list| - prev
      {
        assert list[prev..] == [list[prev]] + list[prev + 1..];
        assert list[..prev + 1] == list[..prev] + [list[prev]];
        prev := prev + 1;
      }
      UnlinkAt(list, d, prev);
      list := list[..prev] + list[prev + 1..];
    }

    method SearchShared(shmid: nat) returns (r: Option<nat>)
      requires forall k :: 0 <= k < |list| ==> list[k] in descs
      ensures r == FindShared(View(), list, shmid)
    {
      var i := 0;
      while i < |list|
        invariant i <= |list| && FindShared(View(), list[i..], shmid) == FindShared(View(), list, shmid)
      {
        if !descs[list[i]].isFd && descs[list[i]].shmid == shmid {
          return Some(list[i]);
        }
        assert list[i..][1..] == list[i + 1..];
        i := i + 1;
      }
      return None;
    }

    method AddSegmentResource(xid: nat, d: nat, added: bool) returns (status: Status)
      requires ValidPlus(View(), d) && xid !in resources
      modifies this`list, this`descs, this`resources
      ensures (View(), status) == AddSegment(old(View()), xid, d, added)
    {
      if added {
        resources := resources[xid := d];
        return Success;
      }
      DetachSegment(d);
      return BadAlloc;
    }

    /** ProcShmAttach; `mapped` is the segment's size if it could be attached and may be accessed. */
    method ProcAttach(xid: nat, shmid: nat, readOnly: bool, granted: bool, mapped: Option<nat>, added: bool)
      returns (status: Status)
      requires Valid(View())
      modifies this
      ensures (View(), status) == DoAttach(old(View()), xid, shmid, readOnly, granted, mapped, added)
    {
      if xid in resources {
        return BadIDChoice;
      }
      var shared := SearchShared(shmid);
      if shared.Some? {
        var d := shared.value;
        if !readOnly && !descs[d].writable {
          return BadAccess;
        }
        status := ShareAndAdd(xid, d, added);
      } else {
        if !granted {
          return BadAlloc;
        }
        if mapped.None? {
          return BadAccess;
        }
        status := LinkAndAdd(xid, Desc(shmid, false, !readOnly, mapped.value, 1), added);
      }
    }

    method ShareAndAdd(xid: nat, d: nat, added: bool) returns (status: Status)
      requires Valid(View()) && d in descs && xid !in resources
      modifies this
      ensures (View(), status) == AddSegment(Recount(old(View()), d, 1), xid, d, added)
    {
      AddRefKeeps(View(), d);
      descs := descs[d := descs[d].(refcnt := descs[d].refcnt + 1)];
      status := AddSegmentResource(xid, d, added);
    }

    method LinkAndAdd(xid: nat, desc: Desc, added: bool) returns (status: Status)
      requires Valid(View()) && desc.refcnt == 1 && xid !in resources
      requires !desc.isFd ==> forall k :: 0 <= k < |list| ==> descs[list[k]].isFd || descs[list[k]].shmid != desc.shmid
      modifies this
      ensures (View(), status) == AddSegment(LinkNew(old(View()), desc), xid, old(nextDesc), added)
    {
      assert forall e :: e in descs ==> e in list;
      LinkNewKeeps(View(), desc);
      var d := LinkDesc(desc);
      status := AddSegmentResource(xid, d, added);
    }

    method LinkDesc(desc: Desc) returns (d: nat)
      modifies this`list, this`descs, this`nextDesc
      ensures d == old(nextDesc) && View() == LinkNew(old(View()), desc)
    {
      d := nextDesc;
      list, descs, nextDesc := [d] + list, descs[d := desc], nextDesc + 1;
    }

    /** FreeResource on a segment: ProcShmDetach, or the end of the client that holds it. */
    method ProcDetach(xid: nat) returns (status: Status)
      requires Valid(View())
      modifies this`list, this`descs, this`resources
      ensures (View(), status) == DoDetach(old(View()), xid)
    {
      if xid !in resources {
        return BadShmSeg;
      }
      ReleaseKeeps(View(), xid);
      var d := resources[xid];
      resources := resources - {xid};
      DetachSegment(d);
      return Success;
    }

    /** ShmCreatePixmap, from the segment checks on. */
    method ProcCreatePixmap(pid: nat, xid: nat, offset: nat, bytes: nat, created: bool, permitted: bool, added: bool)
      returns (status: Status)
      requires Valid(View())
      modifies this`list, this`descs, this`pixmaps
      ensures (View(), status) == DoCreatePixmap(old(View()), pid, xid, offset, bytes, created, permitted, added)
    {
      if pid in pixmaps {
        return BadIDChoice;
      }
      if xid !in resources {
        return BadShmSeg;
      }
      var d := resources[xid];
      var check := PixmapCheck(descs[d], offset, bytes, created, permitted);
      if check != Success {
        return check;
      }
      AddRefKeeps(View(), d);
      descs := descs[d := descs[d].(refcnt := descs[d].refcnt + 1)];
      HoldPixmapKeeps(View(), pid, Pixmap(d, offset, bytes));
      pixmaps := pixmaps[pid := Pixmap(d, offset, bytes)];
      if !added {
        PixmapDestroy(pid);
        return BadAlloc;
      }
      return Success;
    }

    /** ShmPixmapDestroy */
    method PixmapDestroy(pid: nat)
      requires Valid(View())
      modifies this`list, this`descs, this`pixmaps
      ensures View() == DoDestroyPixmap(old(View()), pid)
    {
      if pid in pixmaps {
        ReleasePixmapKeeps(View(), pid);
        var d := pixmaps[pid].desc;
        pixmaps := pixmaps - {pid};
        DetachSegment(d);
      }
    }
  }
}
