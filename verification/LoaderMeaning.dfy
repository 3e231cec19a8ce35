/**
 What an element of an alias file leads to: when exactly it registers
 something, and what that is.
 */
module LoaderMeaning {
  import opened Wrappers
  import opened Registry
  import opened AliasLoader

  // ---------- paths ----------

  /** A path of ids leads from command to subcommand. */
  lemma {:induction false} WalkThen(reg: Registry, c: nat, parts: seq<string>, id: string)
    requires Fits(reg) && c < |reg.commands|
    ensures Walk(reg, c, parts + [id]) ==
            match Walk(reg, c, parts)
            case None => None
            case Some(d) => FindCommand(reg, CommandsOf(reg, d), id)
    decreases |parts|
  {
    if parts == [] {
      assert [id][1..] == [];
    } else {
      assert (parts + [id])[1..] == parts[1..] + [id];
      match FindCommand(reg, CommandsOf(reg, c), parts[0])
      case None =>
      case Some(d) => WalkThen(reg, d, parts[1..], id);
    }
  }

  /** The subcommand of that id, if there is a command to have it. */
  function Below(reg: Registry, c: Option<nat>, id: string): Option<nat>
    requires Fits(reg) && (c.Some? ==> c.value < |reg.commands|)
  {
    match c case None => None case Some(d) => FindCommand(reg, CommandsOf(reg, d), id)
  }

  /**
   The empty path is the root, an id is a subcommand of the root, and "path.id" a subcommand of what
   the path names.
   */
  lemma {:induction false} PathsLead(reg: Registry, path: string, id: string)
    requires Fits(reg) && id != "" && '.' !in id
    ensures GetCommand(reg, "") == Some(reg.root)
    ensures GetCommand(reg, id) == FindCommand(reg, CommandsOf(reg, reg.root), id)
    ensures path != "" ==> Below(reg, GetCommand(reg, path), id) == GetCommand(reg, path + "." + id)
  {
    SplitNoDot(id);
    WalkThen(reg, reg.root, [], id);
    assert [] + [id] == [id];
    SplitAtDot(path, id);
    WalkThen(reg, reg.root, SplitDots(path), id);
  }

  // ---------- attachments ----------

  predicate Resolves(reg: Registry, a: AttachedElement)
    requires Fits(reg)
  {
    a.idPath.Some? && Resolve(reg, a.idPath.value).Some?
  }

  /** An attachment has the path and the value of its element, a missing value read as empty. */
  predicate TakenFrom(x: Attached, a: AttachedElement) {
    a.idPath == Some(x.idPath) && x.value == match a.value case None => "" case Some(v) => v
  }

  lemma {:induction false} AttachStep(reg: Registry, a: AttachedElement, rest: seq<AttachedElement>)
    requires Fits(reg)
    ensures if !Resolves(reg, a) then Attach(reg, [a] + rest) == ([], false)
            else
              var r := Attach(reg, [a] + rest);
              && |r.0| == 1 + |Attach(reg, rest).0| && TakenFrom(r.0[0], a)
              && r.0[1..] == Attach(reg, rest).0 && r.1 == Attach(reg, rest).1
  {
    assert ([a] + rest)[1..] == rest;
  }

  /** The attachments are those of the first elements, all of which resolve. */
  ghost predicate TakenInOrder(reg: Registry, attached: seq<Attached>, list: seq<AttachedElement>)
    requires Fits(reg)
  {
    && |attached| <= |list|
    && (forall k :: 0 <= k < |attached| ==> Resolves(reg, list[k]))
    && forall k :: 0 <= k < |attached| ==> TakenFrom(attached[k], list[k])
  }

  lemma {:induction false} TakenOneMore(
    reg: Registry, x: Attached, xs: seq<Attached>, a: AttachedElement, rest: seq<AttachedElement>)
    requires Fits(reg) && Resolves(reg, a) && TakenFrom(x, a) && TakenInOrder(reg, xs, rest)
    ensures TakenInOrder(reg, [x] + xs, [a] + rest)
  {
  }

  /** The attachments are those of the elements up to the first that does not resolve; all of them if all resolve. */
  lemma {:induction false} AttachExactly(reg: Registry, list: seq<AttachedElement>)
    requires Fits(reg)
    ensures var (attached, all) := Attach(reg, list);
            && TakenInOrder(reg, attached, list)
            && (all <==> |attached| == |list|)
            && (!all ==> !Resolves(reg, list[|attached|]))
  {
    if list != [] {
      var a, rest := list[0], list[1..];
      assert list == [a] + rest;
      AttachStep(reg, a, rest);
      if Resolves(reg, a) {
        AttachExactly(reg, rest);
        var attached := Attach(reg, list).0;
        TakenOneMore(reg, attached[0], attached[1..], a, rest);
        assert attached == [attached[0]] + attached[1..];
      }
    }
  }

  // ---------- groups ----------

  /** The group an element asks for: one of the parent's groups with that id, or none. */
  lemma {:induction false} GroupExactly(reg: Registry, parent: nat, groupId: Option<string>)
    requires Fits(reg) && parent < |reg.commands|
    ensures var g := GroupFor(reg, parent, groupId);
            && (g.Some? ==> g.value in GroupsOf(reg, parent) && groupId == Some(reg.groups[g.value].id))
            && (g.None? && groupId.Some? ==>
                 forall k :: 0 <= k < |GroupsOf(reg, parent)| ==>
                     reg.groups[GroupsOf(reg, parent)[k]].id != groupId.value)
  {
    if groupId.Some? {
      FindGroupExactly(reg, GroupsOf(reg, parent), groupId.value);
    }
  }

  lemma {:induction false} FindGroupExactly(reg: Registry, groups: seq<nat>, id: string)
    requires forall k :: 0 <= k < |groups| ==> groups[k] < |reg.groups|
    ensures var g := FindGroup(reg, groups, id);
            && (g.Some? ==> g.value in groups && reg.groups[g.value].id == id)
            && (g.None? ==> forall k :: 0 <= k < |groups| ==> reg.groups[groups[k]].id != id)
  {
    if groups != [] && reg.groups[groups[0]].id != id {
      FindGroupExactly(reg, groups[1..], id);
      assert forall k :: 0 < k < |groups| ==> groups[k] == groups[1..][k - 1];
    }
  }

  /** Member `id` has joined group `g`, if there is one; nothing else about groups has changed. */
  ghost predicate Joined(before: seq<Group>, after: seq<Group>, g: Option<nat>, id: string) {
    && |after| == |before|
    && forall k :: 0 <= k < |before| ==>
         after[k] == if g == Some(k) then before[k].(members := before[k].members + [id]) else before[k]
  }

  lemma {:induction false} JoinExactly(reg: Registry, g: Option<nat>, id: string)
    requires g.Some? ==> g.value < |reg.groups|
    ensures Joined(reg.groups, JoinGroup(reg, g, id).groups, g, id)
  {
  }

  /** The id is taken in the group the element asks for. */
  ghost predicate Refused(reg: Registry, parent: nat, groupId: Option<string>, id: string)
    requires Fits(reg) && parent < |reg.commands|
  {
    var g := GroupFor(reg, parent, groupId);
    g.Some? && exists k :: 0 <= k < |reg.groups[g.value].members| && reg.groups[g.value].members[k] == id
  }

  lemma {:induction false} RefusedExactly(reg: Registry, parent: nat, groupId: Option<string>, id: string)
    requires Fits(reg) && parent < |reg.commands|
    ensures Refused(reg, parent, groupId, id) <==> GroupRefuses(reg, GroupFor(reg, parent, groupId), id)
  {
  }

  /** A group element creates its group exactly when it has a header and the parent has no group of that id. */
  lemma {:induction false} GroupElementLoads(reg: Registry, e: Element, parent: nat)
    requires Good(reg) && e.GroupElement? && GetCommand(reg, ParentPath(e.idPath)) == Some(parent)
    requires ElementId(e.idPath) != ""
    ensures var r, id, groups := LoadElement(reg, e), ElementId(e.idPath), GroupsOf(reg, parent);
            && !r.aborted && Fits(r.reg)
            && (if e.header.Some? && (forall k :: 0 <= k < |groups| ==> reg.groups[groups[k]].id != id)
                then && r.reg.groups == reg.groups + [Group(id, [])]
                     && GroupsOf(r.reg, parent) == groups + [|reg.groups|]
                else r.reg == reg)
  {
    var id := ElementId(e.idPath);
    FindGroupExactly(reg, GroupsOf(reg, parent), id);
    LoadElementKeeps(reg, e);
    BodyStable(reg, LoadElement(reg, e).reg, parent);
  }

  // ---------- named arguments ----------

  /** What every element with a bad path or an unknown parent does: nothing. */
  lemma {:induction false} BadPathIsSkipped(reg: Registry, e: Element)
    requires Fits(reg) && (GetCommand(reg, ParentPath(e.idPath)).None? || ElementId(e.idPath) == "")
    ensures LoadElement(reg, e) == Loaded(reg, false)
  {
  }

  /** The argument was created last, is listed last by the parent, and joined its group. */
  ghost predicate Placed(reg: Registry, r: Registry, parent: nat, arg: NamedArg, groupId: Option<string>)
    requires Fits(reg) && parent < |reg.commands|
  {
    && Fits(r) && |r.commands| == |reg.commands| && r.positional == reg.positional
    && r.named == reg.named + [arg]
    && NamedOf(r, parent) == NamedOf(reg, parent) + [|reg.named|]
    && Joined(reg.groups, r.groups, GroupFor(reg, parent, groupId), arg.id)
  }

  lemma {:induction false} PlaceNamedExactly(
    reg: Registry, parent: nat, arg: NamedArg, groupId: Option<string>, ready: bool)
    requires Fits(reg) && parent < |reg.commands|
    ensures var r := PlaceNamed(reg, parent, arg, groupId, ready);
            && r.reg.conflicts == reg.conflicts
            && (if ready && !Refused(reg, parent, groupId, arg.id)
                then !r.aborted && Placed(reg, r.reg, parent, arg, groupId)
                else r == Loaded(AddNamed(reg, arg), ready))
  {
    RefusedExactly(reg, parent, groupId, arg.id);
    if ready && !Refused(reg, parent, groupId, arg.id) {
      var r := PlaceNamed(reg, parent, arg, groupId, ready).reg;
      PlaceNamedKeeps(reg, parent, arg, groupId, ready);
      var created, g := AddNamed(reg, arg), GroupFor(reg, parent, groupId);
      NewNamedFits(reg, arg);
      JoinGroupKeeps(created, g, arg.id);
      JoinExactly(created, g, arg.id);
      BodyStable(reg, JoinGroup(created, g, arg.id), parent);
      BodyStable(reg, r, parent);
    }
  }

  /** The parent has no argument of that id, and the element names its own. */
  predicate NameFree(reg: Registry, parent: nat, id: string, longName: Option<string>, shortName: Option<char>)
    requires Fits(reg) && parent < |reg.commands|
  {
    && (forall k :: 0 <= k < |NamedOf(reg, parent)| ==> reg.named[NamedOf(reg, parent)[k]].id != id)
    && ((longName.Some? && longName.value != "") || shortName.Some?)
  }

  /** The names and values of an argument that an element describes. */
  predicate Described(arg: NamedArg, e: Element)
    requires e.NamedElement?
  {
    && arg.id == ElementId(e.idPath)
    && arg.longName == (match e.longName case None => "" case Some(s) => s)
    && arg.shortName == e.shortName && arg.hasValue == e.hasValue
    && arg.constValue == (match e.constValue case None => "" case Some(s) => s)
    && arg.option.None? && !arg.hasHook
    && |arg.attached| == |e.attached|
    && forall k :: 0 <= k < |arg.attached| ==> TakenFrom(arg.attached[k], e.attached[k])
  }

  /**
   A named-argument element registers its argument exactly when the id is free,
   it has a name, all its attachments resolve and its group does not refuse the
   id; the argument is then as described. A refusal ends the loading.
   */
  lemma {:induction false} NamedElementLoads(reg: Registry, e: Element, parent: nat)
    requires Good(reg) && e.NamedElement? && GetCommand(reg, ParentPath(e.idPath)) == Some(parent)
    requires ElementId(e.idPath) != ""
    ensures var r, id := LoadElement(reg, e), ElementId(e.idPath);
            var wanted := NameFree(reg, parent, id, e.longName, e.shortName);
            var resolved := forall k :: 0 <= k < |e.attached| ==> Resolves(reg, e.attached[k]);
            && r.reg.conflicts == reg.conflicts
            && (r.aborted <==> wanted && resolved && Refused(reg, parent, e.groupId, id))
            && (if !wanted then r.reg == reg
                else
                  && |r.reg.named| == |reg.named| + 1 && r.reg.named[..|reg.named|] == reg.named
                  && (if resolved && !r.aborted
                      then Described(r.reg.named[|reg.named|], e)
                           && Placed(reg, r.reg, parent, r.reg.named[|reg.named|], e.groupId)
                      else r.reg.commands == reg.commands && r.reg.groups == reg.groups))
  {
    var id := ElementId(e.idPath);
    if NameFree(reg, parent, id, e.longName, e.shortName) {
      AttachExactly(reg, e.attached);
      var (attached, ready) := Attach(reg, e.attached);
      var arg := NewNamed(id, e.longName, e.shortName, e.hasValue, e.constValue, attached);
      PlaceNamedExactly(reg, parent, arg, e.groupId, ready);
    }
  }

  /** A copy has everything of its source but its names and attachments. */
  predicate CopyOf(arg: NamedArg, source: NamedArg, e: Element)
    requires e.CloneElement?
  {
    && arg.id == ElementId(e.idPath)
    && arg.longName == (match e.longName case None => "" case Some(s) => s)
    && arg.shortName == e.shortName
    && arg.hasValue == source.hasValue && arg.constValue == source.constValue && arg.option == source.option
    && arg.storeValue == source.storeValue && arg.hasHook == source.hasHook && arg.attached == []
  }

  /** The source of a clone element can be copied. */
  predicate Copyable(reg: Registry, parent: nat, e: Element)
    requires Fits(reg) && parent < |reg.commands| && e.CloneElement?
  {
    && NameFree(reg, parent, ElementId(e.idPath), e.longName, e.shortName)
    && e.source.Some? && Resolve(reg, e.source.value).Some?
  }

  lemma {:induction false} CloneIsPlaced(reg: Registry, e: Element, parent: nat)
    requires Fits(reg) && e.CloneElement? && parent < |reg.commands| && Copyable(reg, parent, e)
    ensures var id, s := ElementId(e.idPath), Resolve(reg, e.source.value).value;
            var copied := WithConflictsOf(reg, s);
            && Fits(copied)
            && LoadClone(reg, parent, id, e.longName, e.shortName, e.source, e.groupId) ==
               PlaceNamed(copied, parent, CloneOf(reg.named[s], id, OrElse(e.longName, ""), e.shortName), e.groupId,
                          true)
            && CopyOf(CloneOf(reg.named[s], id, OrElse(e.longName, ""), e.shortName), reg.named[s], e)
  {
    ConflictsDoNotFit(reg, WithConflictsOf(reg, Resolve(reg, e.source.value).value));
  }

  /**
   A clone element registers a copy of its source exactly when the id is free,
   it has a name, the source resolves and its group does not refuse the id; the
   copy conflicts with what its source conflicts with.
   */
  lemma {:induction false} CloneElementLoads(reg: Registry, e: Element, parent: nat)
    requires Good(reg) && e.CloneElement? && GetCommand(reg, ParentPath(e.idPath)) == Some(parent)
    requires ElementId(e.idPath) != ""
    ensures var r, id := LoadElement(reg, e), ElementId(e.idPath);
            && (r.aborted <==> Copyable(reg, parent, e) && Refused(reg, parent, e.groupId, id))
            && (if !Copyable(reg, parent, e) then r.reg == reg
                else
                  var n, s := |reg.named|, Resolve(reg, e.source.value).value;
                  && |r.reg.named| == n + 1 && CopyOf(r.reg.named[n], reg.named[s], e)
                  && r.reg.conflicts == CopyConflicts(reg.conflicts, NamedRef(n), NamedRef(s), 0)
                  && (!r.aborted ==> Placed(reg, r.reg, parent, r.reg.named[n], e.groupId)))
  {
    if Copyable(reg, parent, e) {
      var id, s := ElementId(e.idPath), Resolve(reg, e.source.value).value;
      var copied := WithConflictsOf(reg, s);
      var arg := CloneOf(reg.named[s], id, OrElse(e.longName, ""), e.shortName);
      CloneIsPlaced(reg, e, parent);
      PlaceNamedExactly(copied, parent, arg, e.groupId, true);
      PlacedAlike(reg, copied, LoadElement(reg, e).reg, parent, arg, e.groupId);
    }
  }

  /** Where an argument is placed does not depend on conflicts. */
  lemma {:induction false} PlacedAlike(
    a: Registry, b: Registry, r: Registry, parent: nat, arg: NamedArg, groupId: Option<string>)
    requires Fits(a) && Fits(b) && b == a.(conflicts := b.conflicts) && parent < |a.commands|
    ensures Refused(a, parent, groupId, arg.id) <==> Refused(b, parent, groupId, arg.id)
    ensures Placed(a, r, parent, arg, groupId) <==> Placed(b, r, parent, arg, groupId)
  {
    SameGroups(a, b, parent, groupId);
  }

  lemma {:induction false} SameGroups(a: Registry, b: Registry, parent: nat, groupId: Option<string>)
    requires Fits(a) && Fits(b) && b == a.(conflicts := b.conflicts) && parent < |a.commands|
    ensures GroupFor(a, parent, groupId) == GroupFor(b, parent, groupId)
    ensures NamedOf(a, parent) == NamedOf(b, parent) && GroupsOf(a, parent) == GroupsOf(b, parent)
  {
    ConflictsDoNotFit(a, b);
    BodyStable(a, b, parent);
    if groupId.Some? {
      SameFindGroup(a, b, GroupsOf(a, parent), groupId.value);
    }
  }

  lemma {:induction false} SameFindGroup(a: Registry, b: Registry, groups: seq<nat>, id: string)
    requires a.groups == b.groups && forall k :: 0 <= k < |groups| ==> groups[k] < |a.groups|
    ensures FindGroup(a, groups, id) == FindGroup(b, groups, id)
  {
    if groups != [] {
      SameFindGroup(a, b, groups[1..], id);
    }
  }

  /** The copy's conflicts are those of its source, both ways. */
  lemma {:induction false} CopyConflictsLikeSource(reg: Registry, n: nat, s: nat, b: Arg)
    requires n != s
    ensures var after := CopyConflicts(reg.conflicts, NamedRef(n), NamedRef(s), 0);
            b != NamedRef(n) && b != NamedRef(s) && Clash(reg.conflicts, NamedRef(s), b) ==>
              Clash(after, NamedRef(n), b) && Clash(after, b, NamedRef(n))
  {
    var list := ConflictsOf(reg.conflicts, NamedRef(s));
    CopyConflictsExact(reg.conflicts, NamedRef(n), NamedRef(s), 0, NamedRef(n), b);
    CopyConflictsExact(reg.conflicts, NamedRef(n), NamedRef(s), 0, b, NamedRef(n));
    assert list[0..] == list;
  }

  // ---------- command aliases ----------

  lemma {:induction false} PlaceCommandExactly(
    reg: Registry, parent: nat, alias: Command, groupId: Option<string>, ready: bool)
    requires Fits(reg) && parent < |reg.commands| && alias.Alias? && alias.parent.None? && alias.target < |reg.commands|
    ensures var r := PlaceCommand(reg, parent, alias, groupId, ready);
            && r.reg.named == reg.named && r.reg.conflicts == reg.conflicts
            && (if ready && !Refused(reg, parent, groupId, alias.id)
                then && !r.aborted && Fits(r.reg) && |r.reg.commands| == |reg.commands| + 1
                     && r.reg.commands[|reg.commands|] == alias.(parent := Some(Body(reg, parent)))
                     && CommandsOf(r.reg, parent) == CommandsOf(reg, parent) + [|reg.commands|]
                     && Joined(reg.groups, r.reg.groups, GroupFor(reg, parent, groupId), alias.id)
                else r == Loaded(AddOrphan(reg, alias), ready))
  {
    RefusedExactly(reg, parent, groupId, alias.id);
    if ready && !Refused(reg, parent, groupId, alias.id) {
      var r := PlaceCommand(reg, parent, alias, groupId, ready).reg;
      PlaceCommandKeeps(reg, parent, alias, groupId, ready);
      var g := GroupFor(reg, parent, groupId);
      JoinGroupKeeps(reg, g, alias.id);
      JoinExactly(reg, g, alias.id);
      BodyStable(reg, JoinGroup(reg, g, alias.id), parent);
      BodyStable(reg, r, parent);
    }
  }

  /** The alias has the target, the number of required values and the attachments of its element. */
  predicate AliasDescribed(reg: Registry, alias: Command, e: Element)
    requires Fits(reg) && e.CommandElement?
  {
    && alias.Alias? && alias.id == ElementId(e.idPath)
    && e.target.Some? && GetCommand(reg, e.target.value) == Some(alias.target)
    && alias.required == e.required
    && |alias.attached| == |e.attached|
    && forall k :: 0 <= k < |alias.attached| ==> TakenFrom(alias.attached[k], e.attached[k])
  }

  /**
   A command element registers an alias of the command it names exactly when
   the id is free among the parent's commands, the required values are complete,
   the named command exists, all attachments resolve and its group does not
   refuse the id; the parent then finds it.
   */
  lemma {:induction false} CommandElementLoads(reg: Registry, e: Element, parent: nat)
    requires Good(reg) && e.CommandElement? && GetCommand(reg, ParentPath(e.idPath)) == Some(parent)
    requires ElementId(e.idPath) != ""
    ensures var r, id, c := LoadElement(reg, e), ElementId(e.idPath), |reg.commands|;
            var wanted := FindCommand(reg, CommandsOf(reg, parent), id).None? && e.requiredComplete
                          && e.target.Some? && GetCommand(reg, e.target.value).Some?;
            var resolved := forall k :: 0 <= k < |e.attached| ==> Resolves(reg, e.attached[k]);
            && r.reg.named == reg.named && r.reg.conflicts == reg.conflicts
            && (r.aborted <==> wanted && resolved && Refused(reg, parent, e.groupId, id))
            && (if !wanted then r.reg == reg
                else
                  && |r.reg.commands| == c + 1
                  && (resolved ==> AliasDescribed(reg, r.reg.commands[c], e))
                  && (if resolved && !r.aborted
                      then && r.reg.commands[c].parent == Some(Body(reg, parent)) && Fits(r.reg)
                           && FindCommand(r.reg, CommandsOf(r.reg, parent), id) == Some(c)
                           && Joined(reg.groups, r.reg.groups, GroupFor(reg, parent, e.groupId), id)
                      else r.reg.commands[..c] == reg.commands && r.reg.groups == reg.groups))
  {
    var id := ElementId(e.idPath);
    var free := FindCommand(reg, CommandsOf(reg, parent), id).None?;
    if free && e.requiredComplete && e.target.Some? && GetCommand(reg, e.target.value).Some? {
      AttachExactly(reg, e.attached);
      var (attached, ready) := Attach(reg, e.attached);
      var alias := Alias(id, None, GetCommand(reg, e.target.value).value, e.required, attached);
      PlaceCommandExactly(reg, parent, alias, e.groupId, ready);
      if ready && !Refused(reg, parent, e.groupId, id) {
        PlacedCommandIsFound(reg, parent, alias, e.groupId);
      }
    }
  }

  /** Elements are loaded in order; one that ends the loading is the last. */
  lemma {:induction false} LoadAllThen(reg: Registry, es: seq<Element>, e: Element)
    requires Good(reg)
    ensures LoadAll(reg, []) == Loaded(reg, false)
    ensures var before := LoadAll(reg, es);
            LoadAll(reg, es + [e]) == if before.aborted then before else LoadElement(before.reg, e)
    decreases |es|
  {
    if es == [] {
      assert es + [e] == [e] && [e][1..] == [];
      LoadElementKeeps(reg, e);
    } else {
      assert (es + [e])[0] == es[0] && (es + [e])[1..] == es[1..] + [e];
      LoadElementKeeps(reg, es[0]);
      var first := LoadElement(reg, es[0]);
      if !first.aborted {
        LoadAllThen(first.reg, es[1..], e);
      }
    }
  }
}
