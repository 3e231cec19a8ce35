/**
 Loading command-line aliases: each decoded element of an alias file creates
 and registers arguments, groups or command aliases in a parser. Whatever the
 file says, attached arguments refer backwards, so firing them terminates.
 */
module AliasLoader {
  import opened Wrappers
  import opened Registry
  import M = ParserMachine
  import P = Parser

  datatype AttachedElement = AttachedElement(idPath: Option<string>, value: Option<string>)

  /** An element of an alias file, with its attributes decoded. */
  datatype Element =
    | GroupElement(idPath: string, header: Option<string>)
    | CloneElement(idPath: string, longName: Option<string>, shortName: Option<char>, source: Option<string>,
                   groupId: Option<string>)
    | NamedElement(idPath: string, longName: Option<string>, shortName: Option<char>, hasValue: bool,
                   constValue: Option<string>, groupId: Option<string>, attached: seq<AttachedElement>)
    | CommandElement(idPath: string, target: Option<string>, required: nat, requiredComplete: bool,
                     groupId: Option<string>, attached: seq<AttachedElement>)

  /** The registry after an element, and whether an exception ended the loading. */
  datatype Loaded = Loaded(reg: Registry, aborted: bool)

  // ---------- the id path of an element ----------

  function LastDot(path: string): (r: Option<nat>)
    ensures r.Some? ==> r.value < |path| && path[r.value] == '.'
    ensures forall k :: (if r.Some? then r.value else -1) < k < |path| ==> path[k] != '.'
  {
    if path == "" then None
    else if path[|path| - 1] == '.' then Some(|path| - 1)
    else LastDot(path[..|path| - 1])
  }

  function ElementId(path: string): string {
    match LastDot(path) case None => path case Some(k) => path[k + 1..]
  }

  function ParentPath(path: string): string {
    match LastDot(path) case None => "" case Some(k) => path[..k]
  }

  // ---------- pieces of a registration ----------

  function OrElse<T>(o: Option<T>, default: T): T {
    match o case None => default case Some(v) => v
  }

  predicate HasName(longName: Option<string>, shortName: Option<char>) {
    OrElse(longName, "") != "" || shortName.Some?
  }

  /** The attachments up to the first one that has no path or does not resolve, and whether all were attached. */
  function Attach(reg: Registry, list: seq<AttachedElement>): (r: (seq<Attached>, bool))
    requires Fits(reg)
    ensures forall k :: 0 <= k < |r.0| ==> Resolve(reg, r.0[k].idPath).Some?
  {
    if list == [] then ([], true)
    else if list[0].idPath.None? || Resolve(reg, list[0].idPath.value).None? then ([], false)
    else
      var rest := Attach(reg, list[1..]);
      ([Attached(list[0].idPath.value, OrElse(list[0].value, ""))] + rest.0, rest.1)
  }

  function AddNamed(reg: Registry, arg: NamedArg): Registry {
    reg.(named := reg.named + [arg])
  }

  /** Appends `n` to the named arguments of `parent`, or of the command it is an alias of. */
  function ListNamed(reg: Registry, parent: nat, n: nat): Registry
    requires Fits(reg) && parent < |reg.commands|
  {
    var b := Body(reg, parent);
    reg.(commands := reg.commands[b := reg.commands[b].(named := reg.commands[b].named + [n])])
  }

  /** Appends a new command alias and registers it under `parent`. */
  function AddCommand(reg: Registry, parent: nat, alias: Command): Registry
    requires Fits(reg) && parent < |reg.commands| && alias.Alias?
  {
    var b, c := Body(reg, parent), |reg.commands|;
    var listed := reg.commands[b].(cmds := reg.commands[b].cmds + [c]);
    reg.(commands := reg.commands[b := listed] + [alias.(parent := Some(b))])
  }

  /** A command alias that was created but never registered. */
  function AddOrphan(reg: Registry, alias: Command): Registry {
    reg.(commands := reg.commands + [alias])
  }

  function GroupFor(reg: Registry, parent: nat, groupId: Option<string>): (g: Option<nat>)
    requires Fits(reg) && parent < |reg.commands|
    ensures g.Some? ==> g.value < |reg.groups|
  {
    match groupId case None => None case Some(id) => FindGroup(reg, GroupsOf(reg, parent), id)
  }

  predicate GroupRefuses(reg: Registry, g: Option<nat>, id: string)
    requires g.Some? ==> g.value < |reg.groups|
  {
    g.Some? && id in reg.groups[g.value].members
  }

  function JoinGroup(reg: Registry, g: Option<nat>, id: string): Registry
    requires g.Some? ==> g.value < |reg.groups|
  {
    match g
    case None => reg
    case Some(k) => reg.(groups := reg.groups[k := reg.groups[k].(members := reg.groups[k].members + [id])])
  }

  // ---------- one element ----------

  function LoadGroup(reg: Registry, parent: nat, id: string, header: Option<string>): Registry
    requires Fits(reg) && parent < |reg.commands|
  {
    if header.None? || FindGroup(reg, GroupsOf(reg, parent), id).Some? then reg
    else
      var b, g := Body(reg, parent), |reg.groups|;
      reg.(groups := reg.groups + [Group(id, [])],
           commands := reg.commands[b := reg.commands[b].(groups := reg.commands[b].groups + [g])])
  }

  /** Creates argument `arg`, joins its group and registers it; `ready` tells whether it gets that far. */
  function PlaceNamed(reg: Registry, parent: nat, arg: NamedArg, groupId: Option<string>, ready: bool): Loaded
    requires Fits(reg) && parent < |reg.commands|
  {
    var created, g := AddNamed(reg, arg), GroupFor(reg, parent, groupId);
    if !ready then Loaded(created, false)
    else if GroupRefuses(reg, g, arg.id) then Loaded(created, true)
    else
      NewNamedFits(reg, arg);
      JoinGroupKeeps(created, g, arg.id);
      Loaded(ListNamed(JoinGroup(created, g, arg.id), parent, |reg.named|), false)
  }

  function PlaceCommand(reg: Registry, parent: nat, alias: Command, groupId: Option<string>, ready: bool): Loaded
    requires Fits(reg) && parent < |reg.commands| && alias.Alias?
  {
    var g := GroupFor(reg, parent, groupId);
    if !ready then Loaded(AddOrphan(reg, alias), false)
    else if GroupRefuses(reg, g, alias.id) then Loaded(AddOrphan(reg, alias), true)
    else
      JoinGroupKeeps(reg, g, alias.id);
      Loaded(AddCommand(JoinGroup(reg, g, alias.id), parent, alias), false)
  }

  function CloneOf(source: NamedArg, id: string, longName: string, shortName: Option<char>): NamedArg {
    source.(id := id, longName := longName, shortName := shortName, attached := [])
  }

  function LoadClone(
    reg: Registry, parent: nat, id: string, longName: Option<string>, shortName: Option<char>, source: Option<string>,
    groupId: Option<string>): Loaded
    requires Fits(reg) && parent < |reg.commands|
  {
    if FindNamed(reg, NamedOf(reg, parent), id).Some? || source.None? || !HasName(longName, shortName)
    then Loaded(reg, false)
    else
      match Resolve(reg, source.value)
      case None => Loaded(reg, false)
      case Some(s) =>
        var arg := CloneOf(reg.named[s], id, OrElse(longName, ""), shortName);
        ConflictsDoNotFit(reg, WithConflictsOf(reg, s));
        PlaceNamed(WithConflictsOf(reg, s), parent, arg, groupId, true)
  }

  /** The conflicts of `s` are copied to the argument that is created next. */
  function WithConflictsOf(reg: Registry, s: nat): Registry {
    reg.(conflicts := CopyConflicts(reg.conflicts, NamedRef(|reg.named|), NamedRef(s), 0))
  }

  function NewNamed(
    id: string, longName: Option<string>, shortName: Option<char>, hasValue: bool, constValue: Option<string>,
    attached: seq<Attached>): NamedArg
  {
    NamedArg(id, OrElse(longName, ""), shortName, hasValue, OrElse(constValue, ""), None, true, false, attached)
  }

  function LoadNamed(
    reg: Registry, parent: nat, id: string, longName: Option<string>, shortName: Option<char>, hasValue: bool,
    constValue: Option<string>, groupId: Option<string>, list: seq<AttachedElement>): Loaded
    requires Fits(reg) && parent < |reg.commands|
  {
    if FindNamed(reg, NamedOf(reg, parent), id).Some? || !HasName(longName, shortName) then Loaded(reg, false)
    else
      var (attached, ready) := Attach(reg, list);
      PlaceNamed(reg, parent, NewNamed(id, longName, shortName, hasValue, constValue, attached), groupId, ready)
  }

  function LoadCommand(
    reg: Registry, parent: nat, id: string, target: Option<string>, required: nat, complete: bool,
    groupId: Option<string>, list: seq<AttachedElement>): Loaded
    requires Fits(reg) && parent < |reg.commands|
  {
    if FindCommand(reg, CommandsOf(reg, parent), id).Some? || !complete || target.None? then Loaded(reg, false)
    else
      match GetCommand(reg, target.value)
      case None => Loaded(reg, false)
      case Some(t) =>
        var (attached, ready) := Attach(reg, list);
        PlaceCommand(reg, parent, Alias(id, None, t, required, attached), groupId, ready)
  }

  function LoadElement(reg: Registry, e: Element): Loaded
    requires Fits(reg)
  {
    var id := ElementId(e.idPath);
    match GetCommand(reg, ParentPath(e.idPath))
    case None => Loaded(reg, false)
    case Some(parent) =>
      if id == "" then Loaded(reg, false)
      else
        match e
        case GroupElement(_, header) => Loaded(LoadGroup(reg, parent, id, header), false)
        case CloneElement(_, longName, shortName, source, groupId) =>
          LoadClone(reg, parent, id, longName, shortName, source, groupId)
        case NamedElement(_, longName, shortName, hasValue, constValue, groupId, list) =>
          LoadNamed(reg, parent, id, longName, shortName, hasValue, constValue, groupId, list)
        case CommandElement(_, target, required, complete, groupId, list) =>
          LoadCommand(reg, parent, id, target, required, complete, groupId, list)
  }

  // ---------- what an element keeps ----------

  /** The invariant of a parser between elements. */
  ghost predicate Good(reg: Registry) {
    Sound(reg) && Resolved(reg) && Symmetric(reg.conflicts)
  }

  /** `b` is well-formed and only grew from `a`. */
  ghost predicate GoodStep(a: Registry, b: Registry) {
    Fits(b) && Grows(a, b)
  }

  lemma {:induction false} NewNamedFits(reg: Registry, arg: NamedArg)
    requires Fits(reg)
    ensures GoodStep(reg, AddNamed(reg, arg))
  {
    var r := AddNamed(reg, arg);
    forall c | 0 <= c < |r.commands|
      ensures CommandFits(r, c) && CommandGrows(reg.commands[c], r.commands[c])
    {
      assert CommandFits(reg, c);
    }
  }

  lemma {:induction false} JoinGroupKeeps(reg: Registry, g: Option<nat>, id: string)
    requires Fits(reg) && (g.Some? ==> g.value < |reg.groups|)
    ensures GoodStep(reg, JoinGroup(reg, g, id))
  {
    var r := JoinGroup(reg, g, id);
    forall c | 0 <= c < |r.commands|
      ensures CommandFits(r, c) && CommandGrows(reg.commands[c], r.commands[c])
    {
      assert CommandFits(reg, c);
    }
  }

  lemma {:induction false} ListNamedKeeps(reg: Registry, parent: nat, n: nat)
    requires Fits(reg) && parent < |reg.commands| && n < |reg.named|
    ensures GoodStep(reg, ListNamed(reg, parent, n))
  {
    var r := ListNamed(reg, parent, n);
    forall c | 0 <= c < |r.commands|
      ensures CommandFits(r, c) && CommandGrows(reg.commands[c], r.commands[c])
    {
      assert CommandFits(reg, c);
    }
  }

  lemma {:induction false} AddCommandKeeps(reg: Registry, parent: nat, alias: Command)
    requires Fits(reg) && parent < |reg.commands| && alias.Alias? && alias.target < |reg.commands|
    ensures GoodStep(reg, AddCommand(reg, parent, alias))
  {
    var r := AddCommand(reg, parent, alias);
    forall c | 0 <= c < |r.commands|
      ensures CommandFits(r, c) && (c < |reg.commands| ==> CommandGrows(reg.commands[c], r.commands[c]))
    {
      if c < |reg.commands| {
        assert CommandFits(reg, c);
      }
    }
  }

  lemma {:induction false} AddOrphanKeeps(reg: Registry, alias: Command)
    requires Fits(reg) && alias.Alias? && alias.parent.None? && alias.target < |reg.commands|
    ensures GoodStep(reg, AddOrphan(reg, alias))
  {
    var r := AddOrphan(reg, alias);
    forall c | 0 <= c < |r.commands|
      ensures CommandFits(r, c) && (c < |reg.commands| ==> CommandGrows(reg.commands[c], r.commands[c]))
    {
      if c < |reg.commands| {
        assert CommandFits(reg, c);
      }
    }
  }

  lemma {:induction false} LoadGroupKeeps(reg: Registry, parent: nat, id: string, header: Option<string>)
    requires Fits(reg) && parent < |reg.commands|
    ensures GoodStep(reg, LoadGroup(reg, parent, id, header))
    ensures LoadGroup(reg, parent, id, header).named == reg.named
    ensures |LoadGroup(reg, parent, id, header).commands| == |reg.commands|
  {
    var r := LoadGroup(reg, parent, id, header);
    forall c | 0 <= c < |r.commands|
      ensures CommandFits(r, c) && CommandGrows(reg.commands[c], r.commands[c])
    {
      assert CommandFits(reg, c);
    }
  }

  /** Growth keeps the invariant when every new object's attachments resolved beforehand. */
  lemma {:induction false} GrowthKeepsGood(a: Registry, b: Registry)
    requires Good(a) && GoodStep(a, b) && Symmetric(b.conflicts)
    requires forall n, k :: |a.named| <= n < |b.named| && 0 <= k < |b.named[n].attached| ==>
               Resolve(a, b.named[n].attached[k].idPath).Some?
    requires forall c, k ::
               (|a.commands| <= c < |b.commands| && b.commands[c].Alias? && 0 <= k < |b.commands[c].attached|) ==>
               Resolve(a, b.commands[c].attached[k].idPath).Some?
    ensures Good(b)
  {
    forall n, k | 0 <= n < |b.named| && 0 <= k < |b.named[n].attached|
      ensures Resolve(b, b.named[n].attached[k].idPath).Some? && Resolve(b, b.named[n].attached[k].idPath).value < n
    {
      var path := b.named[n].attached[k].idPath;
      if n < |a.named| {
        assert b.named[n] == a.named[n];
        assert Resolve(a, a.named[n].attached[k].idPath).Some?;
      }
      ResolveStable(a, b, path);
    }
    forall c, k | 0 <= c < |b.commands| && b.commands[c].Alias? && 0 <= k < |b.commands[c].attached|
      ensures Resolve(b, b.commands[c].attached[k].idPath).Some?
    {
      if c < |a.commands| {
        assert CommandGrows(a.commands[c], b.commands[c]);
      }
      ResolveStable(a, b, b.commands[c].attached[k].idPath);
    }
  }

  lemma {:induction false} PlaceNamedKeeps(
    reg: Registry, parent: nat, arg: NamedArg, groupId: Option<string>, ready: bool)
    requires Fits(reg) && parent < |reg.commands|
    ensures var r := PlaceNamed(reg, parent, arg, groupId, ready).reg;
            && GoodStep(reg, r) && r.conflicts == reg.conflicts
            && r.named == reg.named + [arg] && |r.commands| == |reg.commands|
  {
    var created, g := AddNamed(reg, arg), GroupFor(reg, parent, groupId);
    NewNamedFits(reg, arg);
    if ready && !GroupRefuses(reg, g, arg.id) {
      JoinGroupKeeps(created, g, arg.id);
      var joined := JoinGroup(created, g, arg.id);
      ListNamedKeeps(joined, parent, |reg.named|);
      GrowsTransitive(reg, created, joined);
      GrowsTransitive(reg, joined, ListNamed(joined, parent, |reg.named|));
    }
  }

  lemma {:induction false} PlaceCommandKeeps(
    reg: Registry, parent: nat, alias: Command, groupId: Option<string>, ready: bool)
    requires Fits(reg) && parent < |reg.commands|
    requires alias.Alias? && alias.parent.None? && alias.target < |reg.commands|
    ensures var r := PlaceCommand(reg, parent, alias, groupId, ready).reg;
            && GoodStep(reg, r) && r.conflicts == reg.conflicts && r.named == reg.named
            && |r.commands| == |reg.commands| + 1
            && r.commands[|reg.commands|].Alias? && r.commands[|reg.commands|].attached == alias.attached
  {
    var g := GroupFor(reg, parent, groupId);
    AddOrphanKeeps(reg, alias);
    if ready && !GroupRefuses(reg, g, alias.id) {
      JoinGroupKeeps(reg, g, alias.id);
      var joined := JoinGroup(reg, g, alias.id);
      AddCommandKeeps(joined, parent, alias);
      GrowsTransitive(reg, joined, AddCommand(joined, parent, alias));
    }
  }

  ghost predicate Improves(a: Registry, b: Registry) {
    Good(b) && Grows(a, b)
  }

  lemma {:induction false} LoadCloneKeeps(
    reg: Registry, parent: nat, id: string, longName: Option<string>, shortName: Option<char>, source: Option<string>,
    groupId: Option<string>)
    requires Good(reg) && parent < |reg.commands|
    ensures Improves(reg, LoadClone(reg, parent, id, longName, shortName, source, groupId).reg)
  {
    var r := LoadClone(reg, parent, id, longName, shortName, source, groupId).reg;
    if r != reg {
      var s := Resolve(reg, source.value).value;
      var arg := CloneOf(reg.named[s], id, OrElse(longName, ""), shortName);
      CopyConflictsKeepsSymmetry(reg.conflicts, NamedRef(|reg.named|), NamedRef(s));
      var copied := WithConflictsOf(reg, s);
      ConflictsDoNotFit(reg, copied);
      PlaceNamedKeeps(copied, parent, arg, groupId, true);
      GrowsTransitive(reg, copied, r);
      GrowthKeepsGood(reg, r);
    }
  }

  lemma {:induction false} LoadNamedKeeps(
    reg: Registry, parent: nat, id: string, longName: Option<string>, shortName: Option<char>, hasValue: bool,
    constValue: Option<string>, groupId: Option<string>, list: seq<AttachedElement>)
    requires Good(reg) && parent < |reg.commands|
    ensures Improves(reg, LoadNamed(reg, parent, id, longName, shortName, hasValue, constValue, groupId, list).reg)
  {
    var r := LoadNamed(reg, parent, id, longName, shortName, hasValue, constValue, groupId, list).reg;
    if r != reg {
      var (attached, ready) := Attach(reg, list);
      PlaceNamedKeeps(reg, parent, NewNamed(id, longName, shortName, hasValue, constValue, attached), groupId, ready);
      GrowthKeepsGood(reg, r);
    }
  }

  lemma {:induction false} LoadCommandKeeps(
    reg: Registry, parent: nat, id: string, target: Option<string>, required: nat, complete: bool,
    groupId: Option<string>, list: seq<AttachedElement>)
    requires Good(reg) && parent < |reg.commands|
    ensures Improves(reg, LoadCommand(reg, parent, id, target, required, complete, groupId, list).reg)
  {
    var r := LoadCommand(reg, parent, id, target, required, complete, groupId, list).reg;
    if r != reg {
      var t := GetCommand(reg, target.value).value;
      var (attached, ready) := Attach(reg, list);
      PlaceCommandKeeps(reg, parent, Alias(id, None, t, required, attached), groupId, ready);
      GrowthKeepsGood(reg, r);
    }
  }

  /** Every element keeps the invariant and only adds to the parser. */
  lemma {:induction false} LoadElementKeeps(reg: Registry, e: Element)
    requires Good(reg)
    ensures Good(LoadElement(reg, e).reg) && Grows(reg, LoadElement(reg, e).reg)
  {
    var id, found := ElementId(e.idPath), GetCommand(reg, ParentPath(e.idPath));
    if found.Some? && id != "" {
      var parent := found.value;
      match e
      case GroupElement(_, header) =>
        LoadGroupKeeps(reg, parent, id, header);
        GrowthKeepsGood(reg, LoadGroup(reg, parent, id, header));
      case CloneElement(_, longName, shortName, source, groupId) =>
        LoadCloneKeeps(reg, parent, id, longName, shortName, source, groupId);
      case NamedElement(_, longName, shortName, hasValue, constValue, groupId, list) =>
        LoadNamedKeeps(reg, parent, id, longName, shortName, hasValue, constValue, groupId, list);
      case CommandElement(_, target, required, complete, groupId, list) =>
        LoadCommandKeeps(reg, parent, id, target, required, complete, groupId, list);
    }
  }

  lemma {:induction false} ConflictsDoNotFit(a: Registry, b: Registry)
    requires Fits(a) && b == a.(conflicts := b.conflicts)
    ensures GoodStep(a, b)
  {
    forall c | 0 <= c < |b.commands|
      ensures CommandFits(b, c) && CommandGrows(a.commands[c], b.commands[c])
    {
      assert CommandFits(a, c);
    }
  }

  // ---------- a whole run of elements ----------

  /** Loads elements in order until one of them throws. */
  function LoadAll(reg: Registry, es: seq<Element>): (r: Loaded)
    requires Good(reg)
    ensures Good(r.reg) && Grows(reg, r.reg)
    decreases |es|
  {
    if es == [] then Loaded(reg, false)
    else
      LoadElementKeeps(reg, es[0]);
      var first := LoadElement(reg, es[0]);
      if first.aborted then first
      else
        var rest := LoadAll(first.reg, es[1..]);
        GrowsTransitive(reg, first.reg, rest.reg);
        rest
  }

  // ---------- the loader, updating a parser in place ----------

  method AttachNamedArgs(parser: M.ArgumentParser, list: seq<AttachedElement>)
    returns (attached: seq<Attached>, ok: bool)
    requires Fits(parser.reg)
    ensures (attached, ok) == Attach(parser.reg, list)
  {
    attached, ok := [], true;
    var k := 0;
    assert list[0..] == list;
    while k < |list|
      invariant k <= |list|
      invariant ok && Attach(parser.reg, list).0 == attached + Attach(parser.reg, list[k..]).0
      invariant Attach(parser.reg, list).1 == Attach(parser.reg, list[k..]).1
    {
      var e := list[k];
      if e.idPath.None? || Resolve(parser.reg, e.idPath.value).None? {
        assert Attach(parser.reg, list[k..]) == ([], false);
        assert attached + [] == attached;
        return attached, false;
      }
      assert list[k..][1..] == list[k + 1..];
      var one := Attached(e.idPath.value, OrElse(e.value, ""));
      assert attached + ([one] + Attach(parser.reg, list[k + 1..]).0) ==
          (attached + [one]) + Attach(parser.reg, list[k + 1..]).0;
      attached := attached + [one];
      k := k + 1;
    }
    assert Attach(parser.reg, list[k..]) == ([], true);
    assert attached + [] == attached;
  }

  method RegisterNamedArg(parser: M.ArgumentParser, parent: nat, arg: NamedArg, groupId: Option<string>, ready: bool)
    returns (aborted: bool)
    requires Fits(parser.reg) && parent < |parser.reg.commands|
    modifies parser`reg
    ensures Loaded(parser.reg, aborted) == PlaceNamed(old(parser.reg), parent, arg, groupId, ready)
  {
    var g, n := GroupFor(parser.reg, parent, groupId), |parser.reg.named|;
    NewNamedFits(parser.reg, arg);
    parser.reg := AddNamed(parser.reg, arg);
    if !ready {
      return false;
    }
    if GroupRefuses(parser.reg, g, arg.id) {
      return true;
    }
    JoinGroupKeeps(parser.reg, g, arg.id);
    parser.reg := JoinGroup(parser.reg, g, arg.id);
    parser.reg := ListNamed(parser.reg, parent, n);
    return false;
  }

  method RegisterAlias(parser: M.ArgumentParser, parent: nat, alias: Command, groupId: Option<string>, ready: bool)
    returns (aborted: bool)
    requires Fits(parser.reg) && parent < |parser.reg.commands| && alias.Alias?
    modifies parser`reg
    ensures Loaded(parser.reg, aborted) == PlaceCommand(old(parser.reg), parent, alias, groupId, ready)
  {
    var g := GroupFor(parser.reg, parent, groupId);
    if !ready || GroupRefuses(parser.reg, g, alias.id) {
      parser.reg := AddOrphan(parser.reg, alias);
      return ready;
    }
    JoinGroupKeeps(parser.reg, g, alias.id);
    parser.reg := JoinGroup(parser.reg, g, alias.id);
    parser.reg := AddCommand(parser.reg, parent, alias);
    return false;
  }

  method LoadOne(parser: M.ArgumentParser, e: Element) returns (aborted: bool)
    requires Fits(parser.reg)
    modifies parser`reg
    ensures Loaded(parser.reg, aborted) == LoadElement(old(parser.reg), e)
  {
    var id, found := ElementId(e.idPath), GetCommand(parser.reg, ParentPath(e.idPath));
    if id == "" || found.None? {
      return false;
    }
    var parent := found.value;
    match e {
      case GroupElement(_, header) =>
        parser.reg := LoadGroup(parser.reg, parent, id, header);
        return false;
      case CloneElement(_, longName, shortName, source, groupId) =>
        if FindNamed(parser.reg, NamedOf(parser.reg, parent), id).Some? || source.None?
            || !HasName(longName, shortName) {
          return false;
        }
        var s := Resolve(parser.reg, source.value);
        if s.None? {
          return false;
        }
        var arg := CloneOf(parser.reg.named[s.value], id, OrElse(longName, ""), shortName);
        ghost var before := parser.reg;
        parser.AddConflictArgumentsFrom(NamedRef(|parser.reg.named|), NamedRef(s.value));
        ConflictsDoNotFit(before, parser.reg);
        aborted := RegisterNamedArg(parser, parent, arg, groupId, true);
      case NamedElement(_, longName, shortName, hasValue, constValue, groupId, list) =>
        if FindNamed(parser.reg, NamedOf(parser.reg, parent), id).Some? || !HasName(longName, shortName) {
          return false;
        }
        var attached, ready := AttachNamedArgs(parser, list);
        var arg := NewNamed(id, longName, shortName, hasValue, constValue, attached);
        aborted := RegisterNamedArg(parser, parent, arg, groupId, ready);
      case CommandElement(_, target, required, complete, groupId, list) =>
        if FindCommand(parser.reg, CommandsOf(parser.reg, parent), id).Some? || !complete || target.None? {
          return false;
        }
        var t := GetCommand(parser.reg, target.value);
        if t.None? {
          return false;
        }
        var attached, ready := AttachNamedArgs(parser, list);
        aborted := RegisterAlias(parser, parent, Alias(id, None, t.value, required, attached), groupId, ready);
    }
  }

  /** The loop over the elements of an alias file. */
  method Load(parser: M.ArgumentParser, es: seq<Element>) returns (aborted: bool)
    requires Good(parser.reg)
    modifies parser`reg
    ensures Loaded(parser.reg, aborted) == LoadAll(old(parser.reg), es)
    ensures Good(parser.reg)
  {
    var k := 0;
    while k < |es|
      invariant k <= |es| && Good(parser.reg)
      invariant LoadAll(parser.reg, es[k..]) == LoadAll(old(parser.reg), es)
    {
      LoadElementKeeps(parser.reg, es[k]);
      aborted := LoadOne(parser, es[k]);
      if aborted {
        return true;
      }
      assert es[k..][1..] == es[k + 1..];
      k := k + 1;
    }
    return false;
  }

  // ---------- an element's own path leads to what it registered ----------

  lemma {:induction false} SplitNoDot(path: string)
    requires forall k :: 0 <= k < |path| ==> path[k] != '.'
    ensures SplitDots(path) == [path]
  {
    if path != "" {
      SplitNoDot(path[1..]);
      assert [path[0]] + path[1..] == path;
    }
  }

  lemma {:induction false} SplitAtDot(front: string, last: string)
    requires forall k :: 0 <= k < |last| ==> last[k] != '.'
    ensures SplitDots(front + "." + last) == SplitDots(front) + [last]
  {
    var path := front + "." + last;
    if front == "" {
      SplitNoDot(last);
      assert path[0] == '.' && path[1..] == last;
    } else {
      SplitAtDot(front[1..], last);
      assert path[1..] == front[1..] + "." + last;
      var rest := SplitDots(front[1..]);
      assert (rest + [last])[1..] == rest[1..] + [last];
    }
  }

  /** The parts of a path are the parts of its parent path and the element's id. */
  lemma {:induction false} ElementParts(path: string)
    requires LastDot(path) != Some(0)
    ensures var parts := SplitDots(path);
            parts[|parts| - 1] == ElementId(path)
            && parts[..|parts| - 1] == if ParentPath(path) == "" then [] else SplitDots(ParentPath(path))
  {
    match LastDot(path)
    case None => SplitNoDot(path);
    case Some(k) =>
      assert path == path[..k] + "." + path[k + 1..];
      SplitAtDot(path[..k], path[k + 1..]);
  }

  lemma {:induction false} FindNamedAppended(reg: Registry, xs: seq<nat>, n: nat, id: string)
    requires forall k :: 0 <= k < |xs| ==> xs[k] < |reg.named| && reg.named[xs[k]].id != id
    requires n < |reg.named| && reg.named[n].id == id
    ensures FindNamed(reg, xs + [n], id) == Some(n)
  {
    if xs != [] {
      FindNamedAppended(reg, xs[1..], n, id);
      assert (xs + [n])[1..] == xs[1..] + [n];
    }
  }

  lemma {:induction false} FindCommandAppended(reg: Registry, xs: seq<nat>, c: nat, id: string)
    requires forall k :: 0 <= k < |xs| ==> xs[k] < |reg.commands| && reg.commands[xs[k]].id != id
    requires c < |reg.commands| && reg.commands[c].id == id
    ensures FindCommand(reg, xs + [c], id) == Some(c)
  {
    if xs != [] {
      FindCommandAppended(reg, xs[1..], c, id);
      assert (xs + [c])[1..] == xs[1..] + [c];
    }
  }

  /** Resolving an element's path starts at its parent command. */
  lemma {:induction false} ResolveFromParent(reg: Registry, path: string, parent: nat)
    requires Fits(reg) && LastDot(path) != Some(0) && GetCommand(reg, ParentPath(path)) == Some(parent)
    ensures Resolve(reg, path) == FindNamed(reg, NamedOf(reg, parent), ElementId(path))
  {
    ElementParts(path);
    assert Walk(reg, reg.root, []) == Some(reg.root);
  }

  lemma {:induction false} PlacedNamedIsFound(reg: Registry, parent: nat, arg: NamedArg, groupId: Option<string>)
    requires Fits(reg) && parent < |reg.commands| && FindNamed(reg, NamedOf(reg, parent), arg.id).None?
    requires !PlaceNamed(reg, parent, arg, groupId, true).aborted
    ensures var r := PlaceNamed(reg, parent, arg, groupId, true).reg;
            Fits(r) && FindNamed(r, NamedOf(r, parent), arg.id) == Some(|reg.named|) && r.named[|reg.named|] == arg
  {
    var r := PlaceNamed(reg, parent, arg, groupId, true).reg;
    PlaceNamedKeeps(reg, parent, arg, groupId, true);
    BodyStable(reg, r, parent);
    var created, g := AddNamed(reg, arg), GroupFor(reg, parent, groupId);
    NewNamedFits(reg, arg);
    JoinGroupKeeps(created, g, arg.id);
    BodyStable(reg, JoinGroup(created, g, arg.id), parent);
    assert NamedOf(r, parent) == NamedOf(reg, parent) + [|reg.named|];
    FindNamedAppended(r, NamedOf(reg, parent), |reg.named|, arg.id);
  }

  /**
   A named-argument element that gets registered is found under its own path,
   unless the path's only dot comes first.
   */
  lemma {:induction false} RegisteredIsFound(reg: Registry, e: Element)
    requires Good(reg) && e.NamedElement? && LastDot(e.idPath) != Some(0)
    requires Attach(reg, e.attached).1
    requires LoadElement(reg, e).reg != reg && !LoadElement(reg, e).aborted
    ensures var r := LoadElement(reg, e).reg;
            Fits(r) && Resolve(r, e.idPath) == Some(|reg.named|)
            && r.named[|reg.named|].longName == OrElse(e.longName, "") && r.named[|reg.named|].shortName == e.shortName
  {
    var id, parent := ElementId(e.idPath), GetCommand(reg, ParentPath(e.idPath)).value;
    var (attached, ready) := Attach(reg, e.attached);
    var arg := NewNamed(id, e.longName, e.shortName, e.hasValue, e.constValue, attached);
    PlacedNamedIsFound(reg, parent, arg, e.groupId);
    var r := LoadElement(reg, e).reg;
    LoadElementKeeps(reg, e);
    GetCommandStable(reg, r, ParentPath(e.idPath));
    ResolveFromParent(r, e.idPath, parent);
  }

  /** A path whose only dot comes first is looked up below a command without a name, not below the root. */
  lemma {:induction false} LeadingDotIsLost(reg: Registry, path: string)
    requires Fits(reg) && LastDot(path) == Some(0)
    requires FindCommand(reg, CommandsOf(reg, reg.root), "").None?
    ensures GetCommand(reg, ParentPath(path)) == Some(reg.root) && Resolve(reg, path).None?
  {
    var id := path[1..];
    assert path == "" + "." + id;
    SplitAtDot("", id);
    assert SplitDots(path) == [""] + [id];
    assert SplitDots(path)[..1] == [""];
  }

  /** Placing a named argument leaves every command's subcommands and id as they are. */
  lemma {:induction false} PlaceNamedKeepsCommands(reg: Registry, parent: nat, arg: NamedArg, groupId: Option<string>)
    requires Fits(reg) && parent < |reg.commands|
    ensures var r := PlaceNamed(reg, parent, arg, groupId, true).reg;
            && Fits(r) && r.root == reg.root && |r.commands| == |reg.commands|
            && (forall c :: 0 <= c < |r.commands| ==> r.commands[c].id == reg.commands[c].id)
            && CommandsOf(r, r.root) == CommandsOf(reg, reg.root)
  {
    var r := PlaceNamed(reg, parent, arg, groupId, true).reg;
    PlaceNamedKeeps(reg, parent, arg, groupId, true);
    BodyStable(reg, r, reg.root);
    forall c | 0 <= c < |r.commands|
      ensures r.commands[c].id == reg.commands[c].id
    {
      assert CommandGrows(reg.commands[c], r.commands[c]);
    }
  }

  /**
   Under a root without a nameless command, a named-argument element that gets
   registered is found under its own path exactly when the path's only dot does
   not come first.
   */
  lemma {:induction false} FoundUnderOwnPath(reg: Registry, e: Element)
    requires Good(reg) && e.NamedElement?
    requires FindCommand(reg, CommandsOf(reg, reg.root), "").None?
    requires Attach(reg, e.attached).1
    requires LoadElement(reg, e).reg != reg && !LoadElement(reg, e).aborted
    ensures var r := LoadElement(reg, e).reg;
            Fits(r) && (Resolve(r, e.idPath) == Some(|reg.named|) <==> LastDot(e.idPath) != Some(0))
  {
    var r := LoadElement(reg, e).reg;
    LoadElementKeeps(reg, e);
    if LastDot(e.idPath) != Some(0) {
      RegisteredIsFound(reg, e);
    } else {
      var id, parent := ElementId(e.idPath), GetCommand(reg, ParentPath(e.idPath)).value;
      var arg := NewNamed(id, e.longName, e.shortName, e.hasValue, e.constValue, Attach(reg, e.attached).0);
      PlaceNamedKeepsCommands(reg, parent, arg, e.groupId);
      LeadingDotIsLost(r, e.idPath);
    }
  }

  /** Such an argument is found under the path without the leading dot. */
  lemma {:induction false} FoundWithoutLeadingDot(reg: Registry, e: Element)
    requires Good(reg) && e.NamedElement? && LastDot(e.idPath) == Some(0)
    requires Attach(reg, e.attached).1
    requires LoadElement(reg, e).reg != reg && !LoadElement(reg, e).aborted
    ensures var r := LoadElement(reg, e).reg;
            Fits(r) && Resolve(r, e.idPath[1..]) == Some(|reg.named|)
  {
    var id := ElementId(e.idPath);
    var arg := NewNamed(id, e.longName, e.shortName, e.hasValue, e.constValue, Attach(reg, e.attached).0);
    PlacedNamedIsFound(reg, reg.root, arg, e.groupId);
    SplitNoDot(id);
    assert SplitDots(id)[..0] == [];
  }

  /** A parser with a root command and nothing else. */
  const LONE_ROOT := Registry([], [], [Ordinary("", None, [], [], [], [], false)], [], map[], 0, false)

  const DOTTED := NamedElement(".x", Some("x"), None, false, None, None, [])

  /** For example, the element ".x" is registered at the root, is lost under ".x" and found under "x". */
  lemma {:induction false} DottedIsLost()
    ensures Good(LONE_ROOT)
    ensures var r := LoadElement(LONE_ROOT, DOTTED).reg;
            && Fits(r) && |r.named| == 1 && NamedOf(r, r.root) == [0]
            && Resolve(r, ".x").None? && Resolve(r, "x") == Some(0)
  {
    assert CommandFits(LONE_ROOT, 0);
    var r := LoadElement(LONE_ROOT, DOTTED).reg;
    assert LastDot(".x") == Some(0) by {
      assert ".x"[..1] == ".";
    }
    assert ElementId(".x") == "x" && ParentPath(".x") == "";
    LoadElementKeeps(LONE_ROOT, DOTTED);
    FoundUnderOwnPath(LONE_ROOT, DOTTED);
    FoundWithoutLeadingDot(LONE_ROOT, DOTTED);
    LeadingDotIsLost(r, ".x");
    assert ".x"[1..] == "x";
  }

  lemma {:induction false} PlacedCommandIsFound(reg: Registry, parent: nat, alias: Command, groupId: Option<string>)
    requires Fits(reg) && parent < |reg.commands| && FindCommand(reg, CommandsOf(reg, parent), alias.id).None?
    requires alias.Alias? && alias.parent.None? && alias.target < |reg.commands|
    requires !PlaceCommand(reg, parent, alias, groupId, true).aborted
    ensures var r := PlaceCommand(reg, parent, alias, groupId, true).reg;
            Fits(r) && FindCommand(r, CommandsOf(r, parent), alias.id) == Some(|reg.commands|)
  {
    var r := PlaceCommand(reg, parent, alias, groupId, true).reg;
    PlaceCommandKeeps(reg, parent, alias, groupId, true);
    BodyStable(reg, r, parent);
    var g := GroupFor(reg, parent, groupId);
    JoinGroupKeeps(reg, g, alias.id);
    BodyStable(reg, JoinGroup(reg, g, alias.id), parent);
    assert CommandsOf(r, parent) == CommandsOf(reg, parent) + [|reg.commands|];
    forall k | 0 <= k < |CommandsOf(reg, parent)|
      ensures r.commands[CommandsOf(reg, parent)[k]].id != alias.id
    {
      var c := CommandsOf(reg, parent)[k];
      assert CommandGrows(reg.commands[c], r.commands[c]);
    }
    FindCommandAppended(r, CommandsOf(reg, parent), |reg.commands|, alias.id);
  }

  // ---------- what holds after any run of elements ----------

  /**
   After any elements, every attachment names an argument created before its
   owner, and no further elements change which one.
   */
  lemma {:induction false} AttachmentsAreFixed(reg: Registry, es: seq<Element>, more: seq<Element>, n: nat, k: nat)
    requires Good(reg)
    requires n < |LoadAll(reg, es).reg.named| && k < |LoadAll(reg, es).reg.named[n].attached|
    ensures var now := LoadAll(reg, es).reg;
            var later := LoadAll(now, more).reg;
            var path := now.named[n].attached[k].idPath;
            && Resolve(now, path).Some? && Resolve(now, path).value < n
            && later.named[n] == now.named[n] && Resolve(later, path) == Resolve(now, path)
  {
    var now := LoadAll(reg, es).reg;
    ResolveStable(now, LoadAll(now, more).reg, now.named[n].attached[k].idPath);
  }

  /** The same for the attachments of a command alias. */
  lemma {:induction false} AliasAttachmentsAreFixed(reg: Registry, es: seq<Element>, more: seq<Element>, c: nat, k: nat)
    requires Good(reg)
    requires c < |LoadAll(reg, es).reg.commands| && LoadAll(reg, es).reg.commands[c].Alias?
    requires k < |LoadAll(reg, es).reg.commands[c].attached|
    ensures var now := LoadAll(reg, es).reg;
            var later := LoadAll(now, more).reg;
            var path := now.commands[c].attached[k].idPath;
            && Resolve(now, path).Some?
            && later.commands[c] == now.commands[c] && Resolve(later, path) == Resolve(now, path)
  {
    var now := LoadAll(reg, es).reg;
    var later := LoadAll(now, more).reg;
    assert CommandGrows(now.commands[c], later.commands[c]);
    ResolveStable(now, later, now.commands[c].attached[k].idPath);
  }

  /** `m` is attached to `n`. */
  predicate Fires(reg: Registry, n: nat, m: nat)
    requires Fits(reg)
  {
    && n < |reg.named|
    && exists k ::
         0 <= k < |reg.named[n].attached| && Resolve(reg, reg.named[n].attached[k].idPath) == Some(m)
  }

  /** A chain of firings never returns to an argument it started from. */
  lemma {:induction false} NoFiringCycle(reg: Registry, chain: seq<nat>)
    requires Good(reg) && |chain| > 1
    requires forall i :: 0 <= i < |chain| - 1 ==> Fires(reg, chain[i], chain[i + 1])
    ensures chain[|chain| - 1] < chain[0] && |chain| <= chain[0] + 1
    decreases |chain|
  {
    assert Fires(reg, chain[0], chain[1]);
    if |chain| > 2 {
      var rest := chain[1..];
      forall i | 0 <= i < |rest| - 1
        ensures Fires(reg, rest[i], rest[i + 1])
      {
        assert Fires(reg, chain[i + 1], chain[i + 2]);
      }
      NoFiringCycle(reg, rest);
    }
  }

  /**
   Whatever alias files are loaded and whatever words are given, parsing ends;
   no attachment dangles, conflicting arguments stay apart, and a successful
   parse used every word after the first exactly once.
   */
  lemma {:induction false} LoadedParserIsSafe(reg: Registry, es: seq<Element>, argv: seq<string>)
    requires Good(reg) && |argv| > 0
    ensures var loaded := LoadAll(reg, es).reg;
            var fresh0 := P.ParseState(map[], map[], map[], [], [], loaded.root);
            var r := P.ParseArgv(loaded, argv, fresh0);
            && P.Apart(loaded, r.st)
            && (r.Threw? ==> !r.error.NotFound?)
            && (r.Done? ==> P.Tiles(r.st.uses, P.Position(1, 0), P.Position(|argv|, 0)))
  {
    var loaded := LoadAll(reg, es).reg;
    var start := P.ParseState(map[], map[], map[], [], [], loaded.root);
    var r := P.ParseArgv(loaded, argv, start);
    assert P.Apart(loaded, start);
    assert r.st.uses[0..] == r.st.uses;
  }
}
