/**
 What parsing an option does, all attached arguments included: a list of
 firings, each an argument with its value, played one after the other. The
 long and the short form of an option fire the same arguments with the same values.
 */
module ParserFirings {
  import opened Wrappers
  import opened Registry
  import opened Parser
  import Templates
  import ParserSpellings

  /** An argument, the option text its hook sees, and the value it gets. */
  datatype Firing = Firing(n: nat, text: string, value: string)

  /** The spelling that attached arguments are fired with. */
  datatype Form = LongForm(name: string) | ShortForm(letter: char)

  /** What an attached argument gets: its template with every "${}" replaced, or its constant. */
  function AttachedValue(arg: NamedArg, template: string, value: string): string {
    if arg.hasValue then Templates.Join(Templates.Pieces(template, "${}"), value) else arg.constValue
  }

  function AttachedText(form: Form, arg: NamedArg, value: string): string {
    match form
    case ShortForm(letter) => [letter]
    case LongForm(name) => if arg.hasValue then name + "=" + value else name
  }

  /** The firings of argument `n` with a value: itself, then those of its attached arguments in order. */
  function Firings(reg: Registry, n: nat, text: string, value: string, form: Form): (fs: seq<Firing>)
    requires Sound(reg) && n < |reg.named|
    ensures forall i :: 0 <= i < |fs| ==> fs[i].n < |reg.named|
    decreases n, |reg.named[n].attached| + 1
  {
    [Firing(n, text, value)] + AttachedFirings(reg, n, 0, value, form)
  }

  /** The firings of the attached arguments of `n` from the k-th on, as far as they resolve. */
  function AttachedFirings(reg: Registry, n: nat, k: nat, value: string, form: Form): (fs: seq<Firing>)
    requires Sound(reg) && n < |reg.named| && k <= |reg.named[n].attached|
    ensures forall i :: 0 <= i < |fs| ==> fs[i].n < |reg.named|
    decreases n, |reg.named[n].attached| - k
  {
    if k == |reg.named[n].attached| then []
    else
      var a := reg.named[n].attached[k];
      match Resolve(reg, a.idPath)
      case None => []
      case Some(m) =>
        var v := AttachedValue(reg.named[m], a.value, value);
        Firings(reg, m, AttachedText(form, reg.named[m], v), v, form) + AttachedFirings(reg, n, k + 1, value, form)
  }

  /** Every attachment below argument `n` resolves. */
  predicate Complete(reg: Registry, n: nat)
    requires Sound(reg) && n < |reg.named|
    decreases n, |reg.named[n].attached| + 1
  {
    CompleteFrom(reg, n, 0)
  }

  predicate CompleteFrom(reg: Registry, n: nat, k: nat)
    requires Sound(reg) && n < |reg.named| && k <= |reg.named[n].attached|
    decreases n, |reg.named[n].attached| - k
  {
    k == |reg.named[n].attached| ||
    match Resolve(reg, reg.named[n].attached[k].idPath)
    case None => false
    case Some(m) => Complete(reg, m) && CompleteFrom(reg, n, k + 1)
  }

  // ---------- playing firings ----------

  /** One firing: the argument takes its value. */
  function Fire(reg: Registry, f: Firing, st: ParseState): ParseState {
    if f.n < |reg.named| then Accept(reg, f.n, f.text, f.value, st) else st
  }

  function Play(reg: Registry, fs: seq<Firing>, st: ParseState): ParseState {
    if fs == [] then st else Fire(reg, fs[|fs| - 1], Play(reg, fs[..|fs| - 1], st))
  }

  /** No firing meets an argument it conflicts with that was parsed before it. */
  predicate Passes(reg: Registry, fs: seq<Firing>, st: ParseState) {
    fs == [] ||
    (&& Passes(reg, fs[..|fs| - 1], st)
     && ConflictOf(reg, Play(reg, fs[..|fs| - 1], st), NamedRef(fs[|fs| - 1].n)).None?)
  }

  lemma {:induction false} PlayNone(reg: Registry, st: ParseState)
    ensures Play(reg, [], st) == st && Passes(reg, [], st)
  {
  }

  lemma {:induction false} PlayLast(reg: Registry, fs: seq<Firing>, f: Firing, st: ParseState)
    ensures Play(reg, fs + [f], st) == Fire(reg, f, Play(reg, fs, st))
    ensures Passes(reg, fs + [f], st) <==>
            Passes(reg, fs, st) && ConflictOf(reg, Play(reg, fs, st), NamedRef(f.n)).None?
  {
    assert (fs + [f])[..|fs|] == fs;
  }

  lemma {:induction false} PlayThen(reg: Registry, fs: seq<Firing>, gs: seq<Firing>, st: ParseState)
    ensures Play(reg, fs + gs, st) == Play(reg, gs, Play(reg, fs, st))
    ensures Passes(reg, fs + gs, st) <==> Passes(reg, fs, st) && Passes(reg, gs, Play(reg, fs, st))
    decreases |gs|
  {
    if gs == [] {
      assert fs + gs == fs;
      PlayNone(reg, Play(reg, fs, st));
    } else {
      var init, g := gs[..|gs| - 1], gs[|gs| - 1];
      PlayThen(reg, fs, init, st);
      LastOf(fs, gs);
      PlayLast(reg, fs + init, g, st);
      PlayLast(reg, init, g, Play(reg, fs, st));
    }
  }

  lemma {:induction false} LastOf(fs: seq<Firing>, gs: seq<Firing>)
    requires gs != []
    ensures gs == gs[..|gs| - 1] + [gs[|gs| - 1]]
    ensures fs + gs == (fs + gs[..|gs| - 1]) + [gs[|gs| - 1]]
  {
  }

  // ---------- what playing amounts to ----------

  ghost predicate Owned(reg: Registry, fs: seq<Firing>) {
    forall i :: 0 <= i < |fs| ==> fs[i].n < |reg.named|
  }

  function Occurs(fs: seq<Firing>, a: Arg): nat {
    if fs == [] then 0 else Occurs(fs[..|fs| - 1], a) + if a == NamedRef(fs[|fs| - 1].n) then 1 else 0
  }

  lemma {:induction false} OccursOnce(fs: seq<Firing>, f: Firing)
    requires f in fs
    ensures Occurs(fs, NamedRef(f.n)) > 0
  {
    if f != fs[|fs| - 1] {
      OccursOnce(fs[..|fs| - 1], f);
    }
  }

  lemma {:induction false} FireCounts(reg: Registry, f: Firing, st: ParseState, a: Arg)
    requires f.n < |reg.named|
    ensures Count(Fire(reg, f, st), a) == Count(st, a) + if a == NamedRef(f.n) then 1 else 0
  {
    assert Fire(reg, f, st).counts == Bump(st, NamedRef(f.n)).counts;
  }

  /** Each argument is counted once for each time it fires. */
  lemma {:induction false} PlayCounts(reg: Registry, fs: seq<Firing>, st: ParseState, a: Arg)
    requires Owned(reg, fs)
    ensures Count(Play(reg, fs, st), a) == Count(st, a) + Occurs(fs, a)
    decreases |fs|
  {
    if fs != [] {
      var init := fs[..|fs| - 1];
      PlayCounts(reg, init, st, a);
      FireCounts(reg, fs[|fs| - 1], Play(reg, init, st), a);
    }
  }

  predicate StoresInto(reg: Registry, f: Firing, o: nat)
    requires f.n < |reg.named|
  {
    reg.named[f.n].storeValue && reg.named[f.n].option == Some(o)
  }

  /** Option `o` holds the value of the i-th firing, after which none stores into it. */
  ghost predicate LastStored(reg: Registry, fs: seq<Firing>, o: nat, i: nat)
    requires Owned(reg, fs) && i < |fs|
  {
    StoresInto(reg, fs[i], o) && forall j :: i < j < |fs| ==> !StoresInto(reg, fs[j], o)
  }

  /** Each option holds the value of the last firing that stores into it. */
  lemma {:induction false} PlayStores(reg: Registry, fs: seq<Firing>, st: ParseState, o: nat, i: nat)
    requires Owned(reg, fs) && i < |fs| && LastStored(reg, fs, o, i)
    ensures o in Play(reg, fs, st).options && Play(reg, fs, st).options[o] == fs[i].value
    decreases |fs|
  {
    var init, f := fs[..|fs| - 1], fs[|fs| - 1];
    if i < |init| {
      PlayStores(reg, init, st, o, i);
      FireElsewhere(reg, f, Play(reg, init, st), o);
    }
  }

  lemma {:induction false} FireElsewhere(reg: Registry, f: Firing, st: ParseState, o: nat)
    requires f.n < |reg.named| && !StoresInto(reg, f, o)
    ensures o in Fire(reg, f, st).options <==> o in st.options
    ensures o in st.options ==> Fire(reg, f, st).options[o] == st.options[o]
  {
  }

  /** An option no firing stores into is as before. */
  lemma {:induction false} PlaySpares(reg: Registry, fs: seq<Firing>, st: ParseState, o: nat)
    requires Owned(reg, fs) && forall j :: 0 <= j < |fs| ==> !StoresInto(reg, fs[j], o)
    ensures o in Play(reg, fs, st).options <==> o in st.options
    ensures o in st.options ==> Play(reg, fs, st).options[o] == st.options[o]
    decreases |fs|
  {
    if fs != [] {
      var init := fs[..|fs| - 1];
      PlaySpares(reg, init, st, o);
      FireElsewhere(reg, fs[|fs| - 1], Play(reg, init, st), o);
    }
  }

  function HookCalls(reg: Registry, fs: seq<Firing>): seq<HookCall> {
    if fs == [] then []
    else HookCalls(reg, fs[..|fs| - 1]) + HookCallsOf(reg, fs[|fs| - 1])
  }

  function HookCallsOf(reg: Registry, f: Firing): seq<HookCall> {
    if f.n < |reg.named| && reg.named[f.n].hasHook then [NamedHook(f.n, f.text, f.value)] else []
  }

  lemma {:induction false} FireCalls(reg: Registry, f: Firing, st: ParseState)
    ensures var next := Fire(reg, f, st);
            && next.hooks == st.hooks + HookCallsOf(reg, f)
            && next.vectors == st.vectors && next.uses == st.uses && next.selected == st.selected
  {
    assert st.hooks + [] == st.hooks;
  }

  /** The hooks of the firings are called in order; nothing but counts, options and hook calls changes. */
  lemma {:induction false} PlayCalls(reg: Registry, fs: seq<Firing>, st: ParseState)
    ensures var next := Play(reg, fs, st);
            && next.hooks == st.hooks + HookCalls(reg, fs)
            && next.vectors == st.vectors && next.uses == st.uses && next.selected == st.selected
    decreases |fs|
  {
    if fs == [] {
      assert st.hooks + [] == st.hooks;
    } else {
      var init, f := fs[..|fs| - 1], fs[|fs| - 1];
      PlayCalls(reg, init, st);
      FireCalls(reg, f, Play(reg, init, st));
      assert (st.hooks + HookCalls(reg, init)) + HookCallsOf(reg, f) == st.hooks + HookCalls(reg, fs);
    }
  }

  /** `b` is another argument that the i-th firing conflicts with. */
  predicate Opposes(reg: Registry, fs: seq<Firing>, i: nat, b: Arg)
    requires i < |fs|
  {
    Clash(reg.conflicts, NamedRef(fs[i].n), b) && b != NamedRef(fs[i].n)
  }

  ghost predicate Unopposed(reg: Registry, fs: seq<Firing>, st: ParseState, i: nat)
    requires i < |fs|
  {
    forall b :: Opposes(reg, fs, i, b) ==> Count(st, b) == 0 && Occurs(fs[..i], b) == 0
  }

  lemma {:induction false} LastUnopposed(reg: Registry, fs: seq<Firing>, st: ParseState)
    requires Owned(reg, fs) && fs != []
    ensures ConflictOf(reg, Play(reg, fs[..|fs| - 1], st), NamedRef(fs[|fs| - 1].n)).None? <==>
            Unopposed(reg, fs, st, |fs| - 1)
  {
    var init := fs[..|fs| - 1];
    forall b
      ensures Count(Play(reg, init, st), b) == 0 <==> Count(st, b) == 0 && Occurs(init, b) == 0
    {
      PlayCounts(reg, init, st, b);
    }
  }

  /** Firings pass exactly when nothing a firing conflicts with was parsed before or fires before it. */
  lemma {:induction false} PassesExactly(reg: Registry, fs: seq<Firing>, st: ParseState)
    requires Owned(reg, fs)
    ensures Passes(reg, fs, st) <==> forall i :: 0 <= i < |fs| ==> Unopposed(reg, fs, st, i)
    decreases |fs|
  {
    if fs != [] {
      var init := fs[..|fs| - 1];
      PassesExactly(reg, init, st);
      LastUnopposed(reg, fs, st);
      forall i | 0 <= i < |init|
        ensures Unopposed(reg, fs, st, i) <==> Unopposed(reg, init, st, i)
      {
        UnopposedEarly(reg, fs, st, i);
      }
    }
  }

  lemma {:induction false} UnopposedEarly(reg: Registry, fs: seq<Firing>, st: ParseState, i: nat)
    requires i < |fs| - 1
    ensures Unopposed(reg, fs, st, i) <==> Unopposed(reg, fs[..|fs| - 1], st, i)
  {
    var init := fs[..|fs| - 1];
    assert fs[..i] == init[..i];
    assert forall b :: Opposes(reg, fs, i, b) <==> Opposes(reg, init, i, b);
  }

  // ---------- parsing an option plays its firings ----------

  /** A call that returns `value` after playing `fs`, or throws exactly when they cannot all be played. */
  ghost predicate Plays<T(!new)>(
    reg: Registry, r: Outcome<T>, value: T, fs: seq<Firing>, complete: bool, st: ParseState) {
    && (r.Done? <==> complete && Passes(reg, fs, st))
    && (r.Done? ==> r == Done(value, Play(reg, fs, st)))
  }

  /** One call after the other. */
  lemma {:induction false} PlaysThen<S(!new), T(!new)>(
    reg: Registry, x: Outcome<S>, v: S, fs: seq<Firing>, c: bool, y: Outcome<T>, w: T, gs: seq<Firing>, d: bool,
    st: ParseState)
    requires Plays(reg, x, v, fs, c, st)
    requires if x.Done? then Plays(reg, y, w, gs, d, x.st) else y.Threw?
    ensures Plays(reg, y, w, fs + gs, c && d, st)
  {
    PlayThen(reg, fs, gs, st);
  }

  lemma {:induction false} AcceptPlays(reg: Registry, f: Firing, st: ParseState)
    requires f.n < |reg.named|
    ensures Play(reg, [f], st) == Accept(reg, f.n, f.text, f.value, st)
    ensures Passes(reg, [f], st) <==> ConflictOf(reg, st, NamedRef(f.n)).None?
  {
    PlayNone(reg, st);
    PlayLast(reg, [], f, st);
    assert [] + [f] == [f];
  }

  /** The firings of an option in its long form, when its text gives it a value. */
  lemma {:induction false} LongPlays(reg: Registry, n: nat, option: string, args: seq<string>, st: ParseState)
    requires Sound(reg) && n < |reg.named| && |args| > 0
    ensures var taken := LongValue(reg.named[n], option, args);
            if taken.Err? then ParseLong(reg, n, option, args, st).Threw?
            else Plays(reg, ParseLong(reg, n, option, args, st), taken.value.1,
                       Firings(reg, n, option, taken.value.0, LongForm(OptionName(option))), Complete(reg, n), st)
    decreases n, |reg.named[n].attached| + 1
  {
    var taken := LongValue(reg.named[n], option, args);
    if taken.Ok? {
      var value, form := taken.value.0, LongForm(OptionName(option));
      var f, gs := Firing(n, option, value), AttachedFirings(reg, n, 0, value, form);
      NameHasNoAssign(option);
      AcceptPlays(reg, f, st);
      PlayThen(reg, [f], gs, st);
      if ConflictOf(reg, st, NamedRef(n)).None? {
        FireLongPlays(reg, n, 0, form.name, value, Accept(reg, n, option, value, st));
      }
    }
  }

  lemma {:induction false} NameHasNoAssign(option: string)
    ensures IndexOf(OptionName(option), '=').None?
  {
  }

  lemma {:induction false} FireLongPlays(reg: Registry, n: nat, k: nat, name: string, value: string, st: ParseState)
    requires Sound(reg) && n < |reg.named| && k <= |reg.named[n].attached| && IndexOf(name, '=').None?
    ensures Plays(reg, FireLong(reg, n, k, name, value, st), (), AttachedFirings(reg, n, k, value, LongForm(name)),
                  CompleteFrom(reg, n, k), st)
    decreases n, |reg.named[n].attached| - k, 1
  {
    PlayNone(reg, st);
    if k < |reg.named[n].attached| {
      var a := reg.named[n].attached[k];
      var m := Resolve(reg, a.idPath);
      if m.Some? {
        var v := AttachedValue(reg.named[m.value], a.value, value);
        FireOneLongPlays(reg, n, k, name, value, st);
        var x, y := FireOneLong(reg, n, k, name, value, st), FireLong(reg, n, k, name, value, st);
        if x.Done? {
          FireLongPlays(reg, n, k + 1, name, value, x.st);
        }
        var text := AttachedText(LongForm(name), reg.named[m.value], v);
        PlaysThen(reg, x, 1, Firings(reg, m.value, text, v, LongForm(name)), Complete(reg, m.value),
                  y, (), AttachedFirings(reg, n, k + 1, value, LongForm(name)), CompleteFrom(reg, n, k + 1), st);
      }
    }
  }

  lemma {:induction false} FireOneLongPlays(reg: Registry, n: nat, k: nat, name: string, value: string, st: ParseState)
    requires Sound(reg) && n < |reg.named| && k < |reg.named[n].attached| && IndexOf(name, '=').None?
    requires Resolve(reg, reg.named[n].attached[k].idPath).Some?
    ensures var a := reg.named[n].attached[k];
            var m := Resolve(reg, a.idPath).value;
            var v := AttachedValue(reg.named[m], a.value, value);
            Plays(reg, FireOneLong(reg, n, k, name, value, st), 1,
                  Firings(reg, m, AttachedText(LongForm(name), reg.named[m], v), v, LongForm(name)), Complete(reg, m),
                      st)
    decreases n, |reg.named[n].attached| - k, 0
  {
    var a := reg.named[n].attached[k];
    var m := Resolve(reg, a.idPath).value;
    var v := AttachedValue(reg.named[m], a.value, value);
    Templates.ReplaceIsSplitAndJoin(a.value, "${}", value);
    AttachedLong(reg.named[m], name, v);
    var long := AttachedText(LongForm(name), reg.named[m], v);
    LongPlays(reg, m, long, [long], st);
  }

  /** The text made up for an attached argument gives it its value and keeps the name. */
  lemma {:induction false} AttachedLong(arg: NamedArg, name: string, v: string)
    requires IndexOf(name, '=').None? && (!arg.hasValue ==> v == arg.constValue)
    ensures var long := AttachedText(LongForm(name), arg, v);
            LongValue(arg, long, [long]) == Ok((v, 1)) && OptionName(long) == name
  {
    ParserSpellings.AssignSplits(name, v);
  }

  /** The same for the short form. */
  lemma {:induction false} ShortPlays(reg: Registry, n: nat, option: string, args: seq<string>, st: ParseState)
    requires Sound(reg) && n < |reg.named| && |args| > 0 && |option| > 0
    ensures var taken := ShortValue(reg.named[n], option, args);
            if taken.Err? then ParseShort(reg, n, option, args, st).Threw?
            else Plays(reg, ParseShort(reg, n, option, args, st), taken.value.1,
                       Firings(reg, n, option, taken.value.0, ShortForm(option[0])), Complete(reg, n), st)
    decreases n, |reg.named[n].attached| + 1
  {
    var taken := ShortValue(reg.named[n], option, args);
    if taken.Ok? {
      var value, form := taken.value.0, ShortForm(option[0]);
      var f, gs := Firing(n, option, value), AttachedFirings(reg, n, 0, value, form);
      AcceptPlays(reg, f, st);
      PlayThen(reg, [f], gs, st);
      if ConflictOf(reg, st, NamedRef(n)).None? {
        FireShortPlays(reg, n, 0, form.letter, value, Accept(reg, n, option, value, st));
      }
    }
  }

  lemma {:induction false} FireShortPlays(reg: Registry, n: nat, k: nat, letter: char, value: string, st: ParseState)
    requires Sound(reg) && n < |reg.named| && k <= |reg.named[n].attached|
    ensures Plays(reg, FireShort(reg, n, k, letter, value, st), (),
                  AttachedFirings(reg, n, k, value, ShortForm(letter)),
                  CompleteFrom(reg, n, k), st)
    decreases n, |reg.named[n].attached| - k, 1
  {
    PlayNone(reg, st);
    if k < |reg.named[n].attached| {
      var a := reg.named[n].attached[k];
      var m := Resolve(reg, a.idPath);
      if m.Some? {
        var v := AttachedValue(reg.named[m.value], a.value, value);
        FireOneShortPlays(reg, n, k, letter, value, st);
        var x, y := FireOneShort(reg, n, k, letter, value, st), FireShort(reg, n, k, letter, value, st);
        if x.Done? {
          FireShortPlays(reg, n, k + 1, letter, value, x.st);
        }
        PlaysThen(reg, x, ShortUse(reg.named[m.value]),
                  Firings(reg, m.value, [letter], v, ShortForm(letter)), Complete(reg, m.value),
                  y, (), AttachedFirings(reg, n, k + 1, value, ShortForm(letter)), CompleteFrom(reg, n, k + 1), st);
      }
    }
  }

  /** How many of the words made up for an attached argument it uses. */
  function ShortUse(arg: NamedArg): nat {
    if arg.hasValue then 2 else 1
  }

  lemma {:induction false} FireOneShortPlays(reg: Registry, n: nat, k: nat, letter: char, value: string, st: ParseState)
    requires Sound(reg) && n < |reg.named| && k < |reg.named[n].attached|
    requires Resolve(reg, reg.named[n].attached[k].idPath).Some?
    ensures var a := reg.named[n].attached[k];
            var m := Resolve(reg, a.idPath).value;
            var v := AttachedValue(reg.named[m], a.value, value);
            Plays(reg, FireOneShort(reg, n, k, letter, value, st), ShortUse(reg.named[m]),
                  Firings(reg, m, [letter], v, ShortForm(letter)), Complete(reg, m), st)
    decreases n, |reg.named[n].attached| - k, 0
  {
    var a := reg.named[n].attached[k];
    var m := Resolve(reg, a.idPath).value;
    Templates.ReplaceIsSplitAndJoin(a.value, "${}", value);
    var args := if reg.named[m].hasValue then [[letter], AttachedValue(reg.named[m], a.value, value)] else [[letter]];
    ShortPlays(reg, m, [letter], args, st);
  }

  // ---------- every attached argument fires ----------

  /** How the k-th attached argument of `n` fires: with its template filled in, or with its constant. */
  function AttachedFiring(reg: Registry, n: nat, k: nat, value: string, form: Form): (f: Option<Firing>)
    requires Sound(reg) && n < |reg.named| && k < |reg.named[n].attached|
    ensures f.Some? ==> f.value.n < |reg.named|
  {
    var a := reg.named[n].attached[k];
    match Resolve(reg, a.idPath)
    case None => None
    case Some(m) =>
      var v := AttachedValue(reg.named[m], a.value, value);
      Some(Firing(m, AttachedText(form, reg.named[m], v), v))
  }

  lemma {:induction false} AttachedStep(reg: Registry, n: nat, j: nat, value: string, form: Form)
    requires Sound(reg) && n < |reg.named| && j < |reg.named[n].attached| && CompleteFrom(reg, n, j)
    ensures AttachedFiring(reg, n, j, value, form).Some? && CompleteFrom(reg, n, j + 1)
    ensures var f := AttachedFiring(reg, n, j, value, form).value;
            AttachedFirings(reg, n, j, value, form) ==
            Firings(reg, f.n, f.text, f.value, form) + AttachedFirings(reg, n, j + 1, value, form)
  {
  }

  lemma {:induction false} FiresItself(reg: Registry, n: nat, text: string, value: string, form: Form)
    requires Sound(reg) && n < |reg.named|
    ensures Firing(n, text, value) in Firings(reg, n, text, value, form)
  {
    assert Firings(reg, n, text, value, form)[0] == Firing(n, text, value);
  }

  /** An argument without attachments fires alone. */
  lemma {:induction false} FiresAlone(reg: Registry, n: nat, text: string, value: string, form: Form)
    requires Sound(reg) && n < |reg.named| && reg.named[n].attached == []
    ensures Firings(reg, n, text, value, form) == [Firing(n, text, value)] && Complete(reg, n)
  {
  }

  /** The k-th attached argument of `n` is among the firings. */
  lemma {:induction false} AttachedFires(reg: Registry, n: nat, j: nat, k: nat, value: string, form: Form)
    requires Sound(reg) && n < |reg.named| && j <= k < |reg.named[n].attached| && CompleteFrom(reg, n, j)
    ensures AttachedFiring(reg, n, k, value, form).Some?
    ensures AttachedFiring(reg, n, k, value, form).value in AttachedFirings(reg, n, j, value, form)
    decreases k - j
  {
    if j < k {
      CompleteLater(reg, n, j);
      AttachedFires(reg, n, j + 1, k, value, form);
      FiresLater(reg, n, j, value, form, AttachedFiring(reg, n, k, value, form).value);
    } else {
      FiresFirst(reg, n, j, value, form);
    }
  }

  lemma {:induction false} CompleteLater(reg: Registry, n: nat, j: nat)
    requires Sound(reg) && n < |reg.named| && j < |reg.named[n].attached| && CompleteFrom(reg, n, j)
    ensures CompleteFrom(reg, n, j + 1)
  {
  }

  lemma {:induction false} InSum(f: Firing, fs: seq<Firing>, gs: seq<Firing>)
    ensures f in fs + gs <==> f in fs || f in gs
  {
  }

  lemma {:induction false} FiresFirst(reg: Registry, n: nat, j: nat, value: string, form: Form)
    requires Sound(reg) && n < |reg.named| && j < |reg.named[n].attached| && CompleteFrom(reg, n, j)
    ensures AttachedFiring(reg, n, j, value, form).Some?
    ensures AttachedFiring(reg, n, j, value, form).value in AttachedFirings(reg, n, j, value, form)
  {
    AttachedStep(reg, n, j, value, form);
    var f := AttachedFiring(reg, n, j, value, form).value;
    FiresItself(reg, f.n, f.text, f.value, form);
    InSum(f, Firings(reg, f.n, f.text, f.value, form), AttachedFirings(reg, n, j + 1, value, form));
  }

  lemma {:induction false} FiresLater(reg: Registry, n: nat, j: nat, value: string, form: Form, g: Firing)
    requires Sound(reg) && n < |reg.named| && j < |reg.named[n].attached| && CompleteFrom(reg, n, j)
    requires g in AttachedFirings(reg, n, j + 1, value, form)
    ensures g in AttachedFirings(reg, n, j, value, form)
  {
    AttachedStep(reg, n, j, value, form);
    var f := AttachedFiring(reg, n, j, value, form).value;
    InSum(g, Firings(reg, f.n, f.text, f.value, form), AttachedFirings(reg, n, j + 1, value, form));
  }

  /** An option that is taken counts each of its attached arguments. */
  lemma {:induction false} AttachedAreCounted(
    reg: Registry, n: nat, option: string, args: seq<string>, st: ParseState, k: nat)
    requires Sound(reg) && n < |reg.named| && |args| > 0 && |option| > 0 && k < |reg.named[n].attached|
    requires ParseLong(reg, n, option, args, st).Done? || ParseShort(reg, n, option, args, st).Done?
    ensures var m := Resolve(reg, reg.named[n].attached[k].idPath);
            && m.Some?
            && (ParseLong(reg, n, option, args, st).Done? ==>
                 Count(ParseLong(reg, n, option, args, st).st, NamedRef(m.value)) > Count(st, NamedRef(m.value)))
            && (ParseShort(reg, n, option, args, st).Done? ==>
                 Count(ParseShort(reg, n, option, args, st).st, NamedRef(m.value)) > Count(st, NamedRef(m.value)))
  {
    if ParseLong(reg, n, option, args, st).Done? {
      LongPlays(reg, n, option, args, st);
      FiredIsCounted(reg, n, option, LongValue(reg.named[n], option, args).value.0, LongForm(OptionName(option)), k,
                     st);
    }
    if ParseShort(reg, n, option, args, st).Done? {
      ShortPlays(reg, n, option, args, st);
      FiredIsCounted(reg, n, option, ShortValue(reg.named[n], option, args).value.0, ShortForm(option[0]), k, st);
    }
  }

  lemma {:induction false} FiredIsCounted(
    reg: Registry, n: nat, text: string, value: string, form: Form, k: nat, st: ParseState)
    requires Sound(reg) && n < |reg.named| && k < |reg.named[n].attached| && Complete(reg, n)
    ensures var m := Resolve(reg, reg.named[n].attached[k].idPath);
            m.Some? && Count(Play(reg, Firings(reg, n, text, value, form), st), NamedRef(m.value)) > Count(st,
                NamedRef(m.value))
  {
    var fs := Firings(reg, n, text, value, form);
    AttachedFires(reg, n, 0, k, value, form);
    var f := AttachedFiring(reg, n, k, value, form).value;
    assert f in fs;
    PlayCounts(reg, fs, st, NamedRef(f.n));
    OccursOnce(fs, f);
  }

  // ---------- what an alias fires ----------

  /** The value an alias hands to an attached argument; an '=' in the word that names the alias cuts it short. */
  function AliasValue(arg: NamedArg, template: string, option: string, words: seq<string>): Option<string> {
    var formatted := if arg.hasValue then Templates.FormatString(template, words) else Ok("");
    if formatted.Err? then None
    else
      match IndexOf(option, '=')
      case Some(k) => if arg.hasValue then Some(option[k + 1..]) else None
      case None => Some(if arg.hasValue then formatted.value else arg.constValue)
  }

  /** Whether attachments k and later of alias `c` resolve and get their values. */
  predicate AliasComplete(reg: Registry, c: nat, k: nat, option: string, words: seq<string>)
    requires Sound(reg) && c < |reg.commands| && reg.commands[c].Alias? && k <= |reg.commands[c].attached|
    decreases |reg.commands[c].attached| - k
  {
    k == |reg.commands[c].attached| ||
    match Resolve(reg, reg.commands[c].attached[k].idPath)
    case None => false
    case Some(m) =>
      && AliasValue(reg.named[m], reg.commands[c].attached[k].value, option, words).Some?
      && Complete(reg, m)
      && AliasComplete(reg, c, k + 1, option, words)
  }

  function AliasFirings(reg: Registry, c: nat, k: nat, option: string, words: seq<string>): (fs: seq<Firing>)
    requires Sound(reg) && c < |reg.commands| && reg.commands[c].Alias? && k <= |reg.commands[c].attached|
    ensures forall i :: 0 <= i < |fs| ==> fs[i].n < |reg.named|
    decreases |reg.commands[c].attached| - k
  {
    if k == |reg.commands[c].attached| then []
    else
      match Resolve(reg, reg.commands[c].attached[k].idPath)
      case None => []
      case Some(m) =>
        match AliasValue(reg.named[m], reg.commands[c].attached[k].value, option, words)
        case None => []
        case Some(v) =>
          Firings(reg, m, option, v, LongForm(OptionName(option))) + AliasFirings(reg, c, k + 1, option, words)
  }

  lemma {:induction false} FireTargetPlays(
    reg: Registry, a: Attached, m: nat, option: string, words: seq<string>, st: ParseState) returns (used: nat)
    requires Sound(reg) && m < |reg.named|
    ensures var v := AliasValue(reg.named[m], a.value, option, words);
            var r := FireTarget(reg, a, Some(m), option, words, st);
            if v.None? then r.Threw?
            else Plays(reg, r, used, Firings(reg, m, option, v.value, LongForm(OptionName(option))), Complete(reg, m),
                       st)
  {
    used := 0;
    var args := AttachedWords(reg, m, a.value, option, words);
    if args.Ok? {
      LongPlays(reg, m, option, args.value, st);
      var taken := LongValue(reg.named[m], option, args.value);
      if taken.Ok? {
        used := taken.value.1;
      }
    }
  }

  lemma {:induction false} FireAliasPlays(
    reg: Registry, c: nat, k: nat, option: string, words: seq<string>, st: ParseState)
    requires Sound(reg) && c < |reg.commands| && reg.commands[c].Alias? && k <= |reg.commands[c].attached|
    ensures Plays(reg, FireAlias(reg, c, k, option, words, st), (), AliasFirings(reg, c, k, option, words),
                  AliasComplete(reg, c, k, option, words), st)
    decreases |reg.commands[c].attached| - k
  {
    PlayNone(reg, st);
    if k < |reg.commands[c].attached| {
      FireAliasTurn(reg, c, k, option, words, st);
      var a := reg.commands[c].attached[k];
      var m := Resolve(reg, a.idPath);
      if m.Some? {
        var used := FireTargetPlays(reg, a, m.value, option, words, st);
        var v := AliasValue(reg.named[m.value], a.value, option, words);
        if v.Some? {
          var x, y := FireOneAlias(reg, c, k, option, words, st), FireAlias(reg, c, k, option, words, st);
          if x.Done? {
            FireAliasPlays(reg, c, k + 1, option, words, x.st);
          }
          PlaysThen(reg, x, used, Firings(reg, m.value, option, v.value, LongForm(OptionName(option))),
                    Complete(reg, m.value),
                    y, (), AliasFirings(reg, c, k + 1, option, words), AliasComplete(reg, c, k + 1, option, words), st);
        }
      }
    }
  }

  /**
   What an alias does before its loop: it starts exactly when its required
   values are there and its attached arguments can all fire; then they have
   fired with the values their templates give for the alias and its values,
   and the loop begins behind those.
   */
  lemma {:induction false} AliasStarts(
    reg: Registry, c: nat, option: string, argv: seq<string>, at: nat, st: ParseState)
    requires Sound(reg) && c < |reg.commands| && reg.commands[c].Alias? && at < |argv|
    ensures var required, r := reg.commands[c].required, AliasStart(reg, c, option, argv, at, st);
            if |argv| - at <= required then r == Threw(MissingValue(option), st)
            else
              var words := argv[at..at + required + 1];
              var fs := AliasFirings(reg, c, 0, option, words);
              && (r.Done? <==> AliasComplete(reg, c, 0, option, words) && Passes(reg, fs, st))
              && (r.Done? ==> r.value == Position(at + 1 + required, 0)
                              && r.st == Play(reg, fs, st).(uses := r.st.uses))
  {
    var required := reg.commands[c].required;
    if required < |argv| - at {
      FireAliasPlays(reg, c, 0, option, AliasWords(argv, at, required), st);
    }
  }

  /** How the k-th attached argument of an alias fires. */
  function AliasFiring(reg: Registry, c: nat, k: nat, option: string, words: seq<string>): (f: Option<Firing>)
    requires Sound(reg) && c < |reg.commands| && reg.commands[c].Alias? && k < |reg.commands[c].attached|
    ensures f.Some? ==> f.value.n < |reg.named|
  {
    var a := reg.commands[c].attached[k];
    match Resolve(reg, a.idPath)
    case None => None
    case Some(m) =>
      match AliasValue(reg.named[m], a.value, option, words)
      case None => None
      case Some(v) => Some(Firing(m, option, v))
  }

  lemma {:induction false} AliasStep(reg: Registry, c: nat, j: nat, option: string, words: seq<string>)
    requires Sound(reg) && c < |reg.commands| && reg.commands[c].Alias? && j < |reg.commands[c].attached|
    requires AliasComplete(reg, c, j, option, words)
    ensures AliasFiring(reg, c, j, option, words).Some? && AliasComplete(reg, c, j + 1, option, words)
    ensures var f := AliasFiring(reg, c, j, option, words).value;
            AliasFirings(reg, c, j, option, words) ==
            Firings(reg, f.n, option, f.value, LongForm(OptionName(option))) + AliasFirings(reg, c, j + 1, option,
                words)
  {
  }

  /** The k-th attached argument of an alias is among its firings. */
  lemma {:induction false} AliasAttachedFires(reg: Registry, c: nat, j: nat, k: nat, option: string, words: seq<string>)
    requires Sound(reg) && c < |reg.commands| && reg.commands[c].Alias? && j <= k < |reg.commands[c].attached|
    requires AliasComplete(reg, c, j, option, words)
    ensures AliasFiring(reg, c, k, option, words).Some?
    ensures AliasFiring(reg, c, k, option, words).value in AliasFirings(reg, c, j, option, words)
    decreases k - j
  {
    if j < k {
      AliasCompleteLater(reg, c, j, option, words);
      AliasAttachedFires(reg, c, j + 1, k, option, words);
      AliasFiresLater(reg, c, j, option, words, AliasFiring(reg, c, k, option, words).value);
    } else {
      AliasFiresFirst(reg, c, j, option, words);
    }
  }

  lemma {:induction false} AliasCompleteLater(reg: Registry, c: nat, j: nat, option: string, words: seq<string>)
    requires Sound(reg) && c < |reg.commands| && reg.commands[c].Alias? && j < |reg.commands[c].attached|
    requires AliasComplete(reg, c, j, option, words)
    ensures AliasComplete(reg, c, j + 1, option, words)
  {
  }

  lemma {:induction false} AliasFiresFirst(reg: Registry, c: nat, j: nat, option: string, words: seq<string>)
    requires Sound(reg) && c < |reg.commands| && reg.commands[c].Alias? && j < |reg.commands[c].attached|
    requires AliasComplete(reg, c, j, option, words)
    ensures AliasFiring(reg, c, j, option, words).Some?
    ensures AliasFiring(reg, c, j, option, words).value in AliasFirings(reg, c, j, option, words)
  {
    AliasStep(reg, c, j, option, words);
    var f, form := AliasFiring(reg, c, j, option, words).value, LongForm(OptionName(option));
    FiresItself(reg, f.n, option, f.value, form);
    InSum(f, Firings(reg, f.n, option, f.value, form), AliasFirings(reg, c, j + 1, option, words));
  }

  lemma {:induction false} AliasFiresLater(reg: Registry, c: nat, j: nat, option: string, words: seq<string>, g: Firing)
    requires Sound(reg) && c < |reg.commands| && reg.commands[c].Alias? && j < |reg.commands[c].attached|
    requires AliasComplete(reg, c, j, option, words) && g in AliasFirings(reg, c, j + 1, option, words)
    ensures g in AliasFirings(reg, c, j, option, words)
  {
    AliasStep(reg, c, j, option, words);
    var f, form := AliasFiring(reg, c, j, option, words).value, LongForm(OptionName(option));
    InSum(g, Firings(reg, f.n, option, f.value, form), AliasFirings(reg, c, j + 1, option, words));
  }

  /** An alias that starts has counted every argument attached to it. */
  lemma {:induction false} AliasCountsAttached(
    reg: Registry, c: nat, option: string, argv: seq<string>, at: nat, st: ParseState, k: nat)
    requires Sound(reg) && c < |reg.commands| && reg.commands[c].Alias? && at < |argv| && k < |reg.commands[c].attached|
    requires AliasStart(reg, c, option, argv, at, st).Done?
    ensures var m := Resolve(reg, reg.commands[c].attached[k].idPath);
            m.Some? && Count(AliasStart(reg, c, option, argv, at, st).st, NamedRef(m.value)) > Count(st,
                NamedRef(m.value))
  {
    var words := AliasWords(argv, at, reg.commands[c].required);
    var fs := AliasFirings(reg, c, 0, option, words);
    AliasStarts(reg, c, option, argv, at, st);
    AliasAttachedFires(reg, c, 0, k, option, words);
    var f := AliasFiring(reg, c, k, option, words).value;
    PlayCounts(reg, fs, st, NamedRef(f.n));
    OccursOnce(fs, f);
    assert Count(AliasStart(reg, c, option, argv, at, st).st, NamedRef(f.n)) == Count(Play(reg, fs, st), NamedRef(f.n));
  }

  /** What an alias with one attached argument without attachments leaves in the argument's option. */
  lemma {:induction false} AliasStoresFirst(
    reg: Registry, c: nat, option: string, argv: seq<string>, at: nat, st: ParseState) returns (f: Firing)
    requires Sound(reg) && c < |reg.commands| && reg.commands[c].Alias? && at < |argv|
    requires |reg.commands[c].attached| == 1 && AliasStart(reg, c, option, argv, at, st).Done?
    ensures at + reg.commands[c].required < |argv|
    ensures AliasFiring(reg, c, 0, option, argv[at..at + reg.commands[c].required + 1]) == Some(f)
    ensures var arg, next := reg.named[f.n], AliasStart(reg, c, option, argv, at, st).st;
            arg.attached == [] && arg.storeValue && arg.option.Some? ==>
              arg.option.value in next.options && next.options[arg.option.value] == f.value
  {
    var words := AliasWords(argv, at, reg.commands[c].required);
    var fs := AliasFirings(reg, c, 0, option, words);
    AliasStarts(reg, c, option, argv, at, st);
    AliasStep(reg, c, 0, option, words);
    f := AliasFiring(reg, c, 0, option, words).value;
    assert AliasFirings(reg, c, 1, option, words) == [];
    var arg := reg.named[f.n];
    if arg.attached == [] && arg.storeValue && arg.option.Some? {
      FiresAlone(reg, f.n, option, f.value, LongForm(OptionName(option)));
      assert fs == [f];
      assert StoresInto(reg, fs[0], arg.option.value);
      PlayStores(reg, fs, st, arg.option.value, 0);
    }
  }

  /** What a rendered template gives an attached argument. */
  lemma {:induction false} RenderedValue(
    arg: NamedArg, t: seq<Templates.Piece>, option: string, words: seq<string>, value: string)
    requires Templates.Separated(t) && AliasValue(arg, Templates.Render(t), option, words) == Some(value)
    ensures Hands(arg, t, option, words, value)
  {
    Templates.FormatRendered(t, words);
  }

  /** The constant, or what the template means for the words; if the alias has an '=', the text behind that instead. */
  predicate Hands(arg: NamedArg, t: seq<Templates.Piece>, option: string, words: seq<string>, value: string) {
    if !arg.hasValue then value == arg.constValue
    else
      var meaning := Templates.Meaning(t, words);
      meaning.Ok? && value == match IndexOf(option, '=') case None => meaning.value case Some(k) => option[k + 1..]
  }

  /**
   An alias with one attached argument that has no attachments of its own: the
   argument's option holds its constant, or what its template means for the
   alias and its values; if the alias has an '=', the text behind that instead.
   */
  lemma {:induction false} AliasStoresAttached(
    reg: Registry, c: nat, option: string, argv: seq<string>, at: nat, st: ParseState, t: seq<Templates.Piece>)
    requires Sound(reg) && c < |reg.commands| && reg.commands[c].Alias? && at < |argv|
    requires |reg.commands[c].attached| == 1 && AliasStart(reg, c, option, argv, at, st).Done?
    requires reg.commands[c].attached[0].value == Templates.Render(t) && Templates.Separated(t)
    ensures var m := Resolve(reg, reg.commands[c].attached[0].idPath);
            m.Some? &&
            (var arg, next := reg.named[m.value], AliasStart(reg, c, option, argv, at, st).st;
             var words := argv[at..at + reg.commands[c].required + 1];
             arg.attached == [] && arg.storeValue && arg.option.Some? ==>
               arg.option.value in next.options && Hands(arg, t, option, words, next.options[arg.option.value]))
  {
    var f := AliasStoresFirst(reg, c, option, argv, at, st);
    RenderedValue(reg.named[f.n], t, option, argv[at..at + reg.commands[c].required + 1], f.value);
  }
}
