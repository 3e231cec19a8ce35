/**
 The objects an argument parser owns: named arguments, positional arguments,
 commands and groups. A pointer to an owned object is its index in the
 owner's list, so creation order is the order of the indices.
 */
module Registry {
  import opened Wrappers

  datatype Attached = Attached(idPath: string, value: string)

  datatype NamedArg = NamedArg(
    id: string,
    longName: string,
    shortName: Option<char>,
    hasValue: bool,
    constValue: string,
    option: Option<nat>,       // the linked option, if any
    storeValue: bool,
    hasHook: bool,
    attached: seq<Attached>)

  datatype PositionalArg = PositionalArg(
    id: string,
    nvals: int,
    nrepeats: int,
    vector: nat,               // the linked vector of values
    storeValue: bool,
    hasHook: bool)

  const OPTIONAL := 0
  const UNLIMITED := -1
  const AT_LEAST_ONE := -2

  datatype Command =
    | Ordinary(
        id: string,
        parent: Option<nat>,
        cmds: seq<nat>,
        named: seq<nat>,
        positionals: seq<nat>,
        groups: seq<nat>,
        hasHook: bool)
    | Alias(
        id: string,
        parent: Option<nat>,
        target: nat,           // the attached command
        required: nat,         // how many required values
        attached: seq<Attached>)

  datatype Group = Group(id: string, members: seq<string>)

  /** A pointer to any argument. */
  datatype Arg = NamedRef(n: nat) | PositionalRef(p: nat) | CommandRef(c: nat)

  datatype Registry = Registry(
    named: seq<NamedArg>,
    positional: seq<PositionalArg>,
    commands: seq<Command>,
    groups: seq<Group>,
    conflicts: map<Arg, seq<Arg>>,
    root: nat,
    inheritNamed: bool)

  // ---------- well-formedness ----------

  /** Lists point at owned objects; a parent and an attached command are older than the command. */
  predicate CommandFits(reg: Registry, c: nat)
    requires c < |reg.commands|
  {
    var cmd := reg.commands[c];
    && (cmd.parent.Some? ==> cmd.parent.value < c)
    && match cmd
       case Ordinary(_, _, cmds, named, positionals, groups, _) =>
         && (forall k :: 0 <= k < |cmds| ==> cmds[k] < |reg.commands|)
         && (forall k :: 0 <= k < |named| ==> named[k] < |reg.named|)
         && (forall k :: 0 <= k < |positionals| ==> positionals[k] < |reg.positional|)
         && (forall k :: 0 <= k < |groups| ==> groups[k] < |reg.groups|)
       case Alias(_, _, target, _, _) => target < c
  }

  predicate Fits(reg: Registry) {
    && reg.root < |reg.commands|
    && forall c :: 0 <= c < |reg.commands| ==> CommandFits(reg, c)
  }

  // ---------- what a command offers; an alias forwards to its attached command ----------

  function Body(reg: Registry, c: nat): (b: nat)
    requires Fits(reg) && c < |reg.commands|
    ensures b <= c && reg.commands[b].Ordinary?
  {
    assert CommandFits(reg, c);
    match reg.commands[c]
    case Ordinary(_, _, _, _, _, _, _) => c
    case Alias(_, _, target, _, _) => Body(reg, target)
  }

  function CommandsOf(reg: Registry, c: nat): (r: seq<nat>)
    requires Fits(reg) && c < |reg.commands|
    ensures forall k :: 0 <= k < |r| ==> r[k] < |reg.commands|
  {
    assert CommandFits(reg, Body(reg, c));
    reg.commands[Body(reg, c)].cmds
  }

  function NamedOf(reg: Registry, c: nat): (r: seq<nat>)
    requires Fits(reg) && c < |reg.commands|
    ensures forall k :: 0 <= k < |r| ==> r[k] < |reg.named|
  {
    assert CommandFits(reg, Body(reg, c));
    reg.commands[Body(reg, c)].named
  }

  function PositionalsOf(reg: Registry, c: nat): (r: seq<nat>)
    requires Fits(reg) && c < |reg.commands|
    ensures forall k :: 0 <= k < |r| ==> r[k] < |reg.positional|
  {
    assert CommandFits(reg, Body(reg, c));
    reg.commands[Body(reg, c)].positionals
  }

  function GroupsOf(reg: Registry, c: nat): (r: seq<nat>)
    requires Fits(reg) && c < |reg.commands|
    ensures forall k :: 0 <= k < |r| ==> r[k] < |reg.groups|
  {
    assert CommandFits(reg, Body(reg, c));
    reg.commands[Body(reg, c)].groups
  }

  /** An ordinary command offers what it lists; an alias offers what its attached command does. */
  lemma {:induction false} OffersExactly(reg: Registry, c: nat)
    requires Fits(reg) && c < |reg.commands|
    ensures reg.commands[c].Ordinary? ==>
              && CommandsOf(reg, c) == reg.commands[c].cmds && NamedOf(reg, c) == reg.commands[c].named
              && PositionalsOf(reg, c) == reg.commands[c].positionals && GroupsOf(reg, c) == reg.commands[c].groups
    ensures reg.commands[c].Alias? ==>
              var t := reg.commands[c].target;
              && t < |reg.commands|
              && CommandsOf(reg, c) == CommandsOf(reg, t) && NamedOf(reg, c) == NamedOf(reg, t)
              && PositionalsOf(reg, c) == PositionalsOf(reg, t) && GroupsOf(reg, c) == GroupsOf(reg, t)
  {
    assert CommandFits(reg, c);
  }

  /** The named arguments of a command and then of its ancestors. */
  function NamedUpwards(reg: Registry, c: nat): (r: seq<nat>)
    requires Fits(reg) && c < |reg.commands|
    ensures forall k :: 0 <= k < |r| ==> r[k] < |reg.named|
  {
    assert CommandFits(reg, c);
    match reg.commands[c].parent
    case None => NamedOf(reg, c)
    case Some(p) => NamedOf(reg, c) + NamedUpwards(reg, p)
  }

  /** The named arguments an ordinary command searches: its own, and the inherited ones when enabled. */
  function Searchable(reg: Registry, c: nat): (r: seq<nat>)
    requires Fits(reg) && c < |reg.commands| && reg.commands[c].Ordinary?
    ensures forall k :: 0 <= k < |r| ==> r[k] < |reg.named|
  {
    assert CommandFits(reg, c);
    var own := reg.commands[c].named;
    if reg.inheritNamed && reg.commands[c].parent.Some? then own + NamedUpwards(reg, reg.commands[c].parent.value)
    else own
  }

  /** What a command alias searches: its attached command's named arguments, then those of its own ancestors. */
  function SearchableByAlias(reg: Registry, c: nat): (r: seq<nat>)
    requires Fits(reg) && c < |reg.commands| && reg.commands[c].Alias?
    ensures forall k :: 0 <= k < |r| ==> r[k] < |reg.named|
  {
    assert CommandFits(reg, c);
    var own := NamedOf(reg, reg.commands[c].target);
    if reg.inheritNamed && reg.commands[c].parent.Some? then own + NamedUpwards(reg, reg.commands[c].parent.value)
    else own
  }

  // ---------- lookup by id path ----------

  function FindCommand(reg: Registry, cmds: seq<nat>, id: string): (r: Option<nat>)
    requires forall k :: 0 <= k < |cmds| ==> cmds[k] < |reg.commands|
    ensures r.Some? ==> r.value in cmds && r.value < |reg.commands| && reg.commands[r.value].id == id
    ensures r.None? ==> forall k :: 0 <= k < |cmds| ==> reg.commands[cmds[k]].id != id
  {
    if cmds == [] then None
    else if reg.commands[cmds[0]].id == id then Some(cmds[0])
    else FindCommand(reg, cmds[1..], id)
  }

  function FindNamed(reg: Registry, args: seq<nat>, id: string): (r: Option<nat>)
    requires forall k :: 0 <= k < |args| ==> args[k] < |reg.named|
    ensures r.Some? ==> r.value in args && r.value < |reg.named| && reg.named[r.value].id == id
    ensures r.None? ==> forall k :: 0 <= k < |args| ==> reg.named[args[k]].id != id
  {
    if args == [] then None
    else if reg.named[args[0]].id == id then Some(args[0])
    else FindNamed(reg, args[1..], id)
  }

  function FindGroup(reg: Registry, groups: seq<nat>, id: string): (r: Option<nat>)
    requires forall k :: 0 <= k < |groups| ==> groups[k] < |reg.groups|
    ensures r.Some? ==> r.value < |reg.groups| && reg.groups[r.value].id == id
  {
    if groups == [] then None
    else if reg.groups[groups[0]].id == id then Some(groups[0])
    else FindGroup(reg, groups[1..], id)
  }

  /** The parts of a path between its dots; a path without a dot is one part. */
  function SplitDots(path: string): (parts: seq<string>)
    ensures |parts| > 0
  {
    if path == "" then [""]
    else
      var rest := SplitDots(path[1..]);
      if path[0] == '.' then [""] + rest else [[path[0]] + rest[0]] + rest[1..]
  }

  function Walk(reg: Registry, c: nat, parts: seq<string>): (r: Option<nat>)
    requires Fits(reg) && c < |reg.commands|
    ensures r.Some? ==> r.value < |reg.commands|
    decreases |parts|
  {
    if parts == [] then Some(c)
    else
      match FindCommand(reg, CommandsOf(reg, c), parts[0])
      case None => None
      case Some(d) => Walk(reg, d, parts[1..])
  }

  /** get_command: the empty path is the root. */
  function GetCommand(reg: Registry, path: string): (r: Option<nat>)
    requires Fits(reg)
    ensures r.Some? ==> r.value < |reg.commands|
  {
    if path == "" then Some(reg.root) else Walk(reg, reg.root, SplitDots(path))
  }

  /** get_named_arg without searching the parents: all parts but the last are commands. */
  function Resolve(reg: Registry, path: string): (r: Option<nat>)
    requires Fits(reg)
    ensures r.Some? ==> r.value < |reg.named|
  {
    var parts := SplitDots(path);
    match Walk(reg, reg.root, parts[..|parts| - 1])
    case None => None
    case Some(c) => FindNamed(reg, NamedOf(reg, c), parts[|parts| - 1])
  }

  // ---------- attachments ----------

  /** Every attachment that resolves, resolves to an argument created before the one it is attached to. */
  ghost predicate Ranked(reg: Registry)
    requires Fits(reg)
  {
    forall n, k :: 0 <= n < |reg.named| && 0 <= k < |reg.named[n].attached| ==>
      match Resolve(reg, reg.named[n].attached[k].idPath)
      case None => true
      case Some(m) => m < n
  }

  /** Every attachment of an argument or of a command alias resolves. */
  ghost predicate Resolved(reg: Registry)
    requires Fits(reg)
  {
    && (forall n, k :: 0 <= n < |reg.named| && 0 <= k < |reg.named[n].attached| ==>
         Resolve(reg, reg.named[n].attached[k].idPath).Some?)
    && (forall c, k :: 0 <= c < |reg.commands| && reg.commands[c].Alias? && 0 <= k < |reg.commands[c].attached| ==>
         Resolve(reg, reg.commands[c].attached[k].idPath).Some?)
  }

  ghost predicate Sound(reg: Registry) {
    Fits(reg) && Ranked(reg)
  }

  // ---------- conflicts ----------

  function ConflictsOf(conflicts: map<Arg, seq<Arg>>, a: Arg): seq<Arg> {
    if a in conflicts then conflicts[a] else []
  }

  predicate Clash(conflicts: map<Arg, seq<Arg>>, a: Arg, b: Arg) {
    b in ConflictsOf(conflicts, a)
  }

  ghost predicate Symmetric(conflicts: map<Arg, seq<Arg>>) {
    forall a, b :: Clash(conflicts, a, b) ==> Clash(conflicts, b, a)
  }

  function AddOneWay(conflicts: map<Arg, seq<Arg>>, a: Arg, b: Arg): (r: map<Arg, seq<Arg>>)
    ensures forall x, y :: Clash(r, x, y) <==> Clash(conflicts, x, y) || (x == a && y == b)
  {
    var list := ConflictsOf(conflicts, a);
    if b in list then conflicts else conflicts[a := list + [b]]
  }

  /** add_conflict_argument: the forward and the reverse conflict. */
  function AddConflict(conflicts: map<Arg, seq<Arg>>, a: Arg, b: Arg): (r: map<Arg, seq<Arg>>)
    ensures forall x, y :: Clash(r, x, y) <==> Clash(conflicts, x, y) || (x == a && y == b) || (x == b && y == a)
  {
    AddOneWay(AddOneWay(conflicts, a, b), b, a)
  }

  lemma {:induction false} AddConflictKeepsSymmetry(conflicts: map<Arg, seq<Arg>>, a: Arg, b: Arg)
    requires Symmetric(conflicts)
    ensures Symmetric(AddConflict(conflicts, a, b))
  {
  }

  /** The conflicts of `src` from position `k` on, copied to `a`. */
  function CopyConflicts(conflicts: map<Arg, seq<Arg>>, a: Arg, src: Arg, k: nat): (r: map<Arg, seq<Arg>>)
    requires k <= |ConflictsOf(conflicts, src)|
    decreases |ConflictsOf(conflicts, src)| - k
  {
    var list := ConflictsOf(conflicts, src);
    if a == src || k == |list| then conflicts
    else if list[k] == a || list[k] == src then CopyConflicts(conflicts, a, src, k + 1)
    else
      var next := AddConflict(conflicts, a, list[k]);
      assert ConflictsOf(next, src) == list;
      CopyConflicts(next, a, src, k + 1)
  }

  lemma {:induction false} CopyConflictsTurn(conflicts: map<Arg, seq<Arg>>, a: Arg, src: Arg, k: nat)
    requires a != src && k < |ConflictsOf(conflicts, src)|
    ensures var b := ConflictsOf(conflicts, src)[k];
            var next := if b == a || b == src then conflicts else AddConflict(conflicts, a, b);
            && ConflictsOf(next, src) == ConflictsOf(conflicts, src)
            && CopyConflicts(next, a, src, k + 1) == CopyConflicts(conflicts, a, src, k)
  {
  }

  /** Whether `x` and `y` are `a` and a member of `list` other than `a` and `src`. */
  predicate CopiedPair(a: Arg, src: Arg, list: seq<Arg>, x: Arg, y: Arg) {
    || (x == a && y != a && y != src && y in list)
    || (y == a && x != a && x != src && x in list)
  }

  /** The pairs that a list gives are those of its first member and those of the rest. */
  lemma {:induction false} CopiedPairStep(a: Arg, src: Arg, b: Arg, rest: seq<Arg>, x: Arg, y: Arg)
    ensures CopiedPair(a, src, [b] + rest, x, y) <==>
            CopiedPair(a, src, rest, x, y) || (b != a && b != src && ((x == a && y == b) || (x == b && y == a)))
  {
  }

  /** Copying adds exactly the source's conflicts, in both directions. */
  lemma {:induction false} CopyConflictsExact(conflicts: map<Arg, seq<Arg>>, a: Arg, src: Arg, k: nat, x: Arg, y: Arg)
    requires k <= |ConflictsOf(conflicts, src)| && a != src
    ensures Clash(CopyConflicts(conflicts, a, src, k), x, y) <==>
            Clash(conflicts, x, y) || CopiedPair(a, src, ConflictsOf(conflicts, src)[k..], x, y)
    decreases |ConflictsOf(conflicts, src)| - k
  {
    var list := ConflictsOf(conflicts, src);
    if k < |list| {
      var b := list[k];
      var next := if b == a || b == src then conflicts else AddConflict(conflicts, a, b);
      CopyConflictsTurn(conflicts, a, src, k);
      CopyConflictsExact(next, a, src, k + 1, x, y);
      assert list[k..] == [b] + list[k + 1..];
      CopiedPairStep(a, src, b, list[k + 1..], x, y);
    }
  }

  lemma {:induction false} CopyConflictsKeepsSymmetry(conflicts: map<Arg, seq<Arg>>, a: Arg, src: Arg)
    requires Symmetric(conflicts)
    ensures Symmetric(CopyConflicts(conflicts, a, src, 0))
  {
    var r := CopyConflicts(conflicts, a, src, 0);
    if a != src {
      forall x, y | Clash(r, x, y)
        ensures Clash(r, y, x)
      {
        CopyConflictsExact(conflicts, a, src, 0, x, y);
        CopyConflictsExact(conflicts, a, src, 0, y, x);
      }
    }
  }

  // ---------- growth: what registration may change ----------

  predicate IsPrefix(a: seq<nat>, b: seq<nat>) {
    |a| <= |b| && forall k :: 0 <= k < |a| ==> b[k] == a[k]
  }

  predicate CommandGrows(a: Command, b: Command) {
    match a
    case Alias(_, _, _, _, _) => a == b
    case Ordinary(id, parent, cmds, named, positionals, _, hasHook) =>
      && b.Ordinary? && b.id == id && b.parent == parent && b.positionals == positionals && b.hasHook == hasHook
      && IsPrefix(cmds, b.cmds) && IsPrefix(named, b.named)
  }

  /** New objects are appended, and lists of an ordinary command only grow at their end. */
  ghost predicate Grows(a: Registry, b: Registry) {
    && a.root == b.root
    && |a.named| <= |b.named| && (forall n :: 0 <= n < |a.named| ==> b.named[n] == a.named[n])
    && |a.commands| <= |b.commands|
    && (forall c :: 0 <= c < |a.commands| ==> CommandGrows(a.commands[c], b.commands[c]))
  }

  lemma {:induction false} GrowsTransitive(a: Registry, b: Registry, c: Registry)
    requires Grows(a, b) && Grows(b, c)
    ensures Grows(a, c)
  {
    forall n | 0 <= n < |a.commands|
      ensures CommandGrows(a.commands[n], c.commands[n])
    {
      assert CommandGrows(a.commands[n], b.commands[n]) && CommandGrows(b.commands[n], c.commands[n]);
    }
  }

  lemma {:induction false} BodyStable(a: Registry, b: Registry, c: nat)
    requires Fits(a) && Fits(b) && Grows(a, b) && c < |a.commands|
    ensures Body(a, c) == Body(b, c)
    ensures CommandGrows(a.commands[Body(a, c)], b.commands[Body(a, c)])
  {
    assert CommandGrows(a.commands[c], b.commands[c]);
    assert CommandFits(a, c);
    if a.commands[c].Alias? {
      BodyStable(a, b, a.commands[c].target);
    }
  }

  lemma {:induction false} FindCommandStable(a: Registry, b: Registry, xs: seq<nat>, ys: seq<nat>, id: string)
    requires Grows(a, b) && IsPrefix(xs, ys)
    requires forall k :: 0 <= k < |xs| ==> xs[k] < |a.commands|
    requires forall k :: 0 <= k < |ys| ==> ys[k] < |b.commands|
    requires FindCommand(a, xs, id).Some?
    ensures FindCommand(b, ys, id) == FindCommand(a, xs, id)
  {
    assert xs[0] == ys[0];
    assert CommandGrows(a.commands[xs[0]], b.commands[xs[0]]);
    if a.commands[xs[0]].id != id {
      FindCommandStable(a, b, xs[1..], ys[1..], id);
    }
  }

  lemma {:induction false} FindNamedStable(a: Registry, b: Registry, xs: seq<nat>, ys: seq<nat>, id: string)
    requires Grows(a, b) && IsPrefix(xs, ys)
    requires forall k :: 0 <= k < |xs| ==> xs[k] < |a.named|
    requires forall k :: 0 <= k < |ys| ==> ys[k] < |b.named|
    requires FindNamed(a, xs, id).Some?
    ensures FindNamed(b, ys, id) == FindNamed(a, xs, id)
  {
    assert xs[0] == ys[0];
    if a.named[xs[0]].id != id {
      FindNamedStable(a, b, xs[1..], ys[1..], id);
    }
  }

  lemma {:induction false} WalkStable(a: Registry, b: Registry, c: nat, parts: seq<string>)
    requires Fits(a) && Fits(b) && Grows(a, b) && c < |a.commands|
    requires Walk(a, c, parts).Some?
    ensures Walk(b, c, parts) == Walk(a, c, parts)
    decreases |parts|
  {
    if parts != [] {
      BodyStable(a, b, c);
      FindCommandStable(a, b, CommandsOf(a, c), CommandsOf(b, c), parts[0]);
      WalkStable(a, b, FindCommand(a, CommandsOf(a, c), parts[0]).value, parts[1..]);
    }
  }

  /** A path that resolves keeps its meaning under every later registration. */
  lemma {:induction false} ResolveStable(a: Registry, b: Registry, path: string)
    requires Fits(a) && Fits(b) && Grows(a, b)
    requires Resolve(a, path).Some?
    ensures Resolve(b, path) == Resolve(a, path)
  {
    var parts := SplitDots(path);
    var cmds, last := parts[..|parts| - 1], parts[|parts| - 1];
    WalkStable(a, b, a.root, cmds);
    var c := Walk(a, a.root, cmds).value;
    BodyStable(a, b, c);
    FindNamedStable(a, b, NamedOf(a, c), NamedOf(b, c), last);
  }

  lemma {:induction false} GetCommandStable(a: Registry, b: Registry, path: string)
    requires Fits(a) && Fits(b) && Grows(a, b)
    requires GetCommand(a, path).Some?
    ensures GetCommand(b, path) == GetCommand(a, path)
  {
    if path != "" {
      WalkStable(a, b, a.root, SplitDots(path));
    }
  }
}
