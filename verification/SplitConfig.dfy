/** Splitting a K configuration into a symbolic one and the contents of its cells (pyk_utils.py), and
    when substituting the contents back returns the configuration. */
module SplitConfig {
  import opened Characters

  /** K terms; a sequence or a rewrite is an application whose label is no cell label. */
  datatype K = KApply(name: string, args: seq<K>) | KVariable(name: string) | KToken(token: string, sort: string)

  predicate IsCellName(name: string) {
    1 < |name| && name[0] == '<' && name[|name| - 1] == '>'
  }

  predicate IsCell(k: K) { k.KApply? && IsCellName(k.name) }

  function Mangle(name: string): string {
    if name == "" then ""
    else if name[0] == '-' then "_" + Mangle(name[1..])
    else if name[0] == '<' || name[0] == '>' then Mangle(name[1..])
    else [name[0]] + Mangle(name[1..])
  }

  function CellVar(name: string): string {
    Upper(Mangle(name)) + "_CELL"
  }

  type Subst = map<string, K>

  /** Replaces the variables of a term; what is put in is not searched again. */
  function Substitute(s: Subst, k: K): K {
    match k
    case KApply(name, args) => KApply(name, seq(|args|, i requires 0 <= i < |args| => Substitute(s, args[i])))
    case KVariable(name) => if name in s then s[name] else k
    case KToken(_, _) => k
  }

  // ----- the careful splitter -----

  predicate Cut(k: K, ignore: set<string>) {
    IsCell(k) && |k.args| == 1 && (!IsCell(k.args[0]) || k.name !in ignore)
  }

  function Skeleton(k: K, ignore: set<string>): K {
    if Cut(k, ignore) then KApply(k.name, [KVariable(CellVar(k.name))])
    else if k.KApply? then KApply(k.name, seq(|k.args|, i requires 0 <= i < |k.args| => Skeleton(k.args[i], ignore)))
    else k
  }

  /** The dictionary after visiting `k` from the top down, starting from `s`. */
  function Collect(k: K, ignore: set<string>, s: Subst): Subst
    decreases k, 0
  {
    if Cut(k, ignore) then s[CellVar(k.name) := k.args[0]]
    else if k.KApply? then CollectArgs(k.args, ignore, s)
    else s
  }

  function CollectArgs(ks: seq<K>, ignore: set<string>, s: Subst): Subst
    decreases ks, 1
  {
    if ks == [] then s else
      Collect(ks[|ks| - 1], ignore, CollectArgs(ks[..|ks| - 1], ignore, s))
  }

  /** `top_down`: the term itself first, then its arguments. */
  method CarefullySplit(k: K, ignore: set<string>, s: Subst) returns (k': K, s': Subst)
    ensures k' == Skeleton(k, ignore)
    ensures s' == Collect(k, ignore, s)
    decreases k, 0
  {
    hide CellVar, CollectArgs;
    s' := s;
    if k.KApply? && IsCell(k) {
      if (|k.args| == 1 && !IsCell(k.args[0])) || (|k.args| == 1 && k.name !in ignore) {
        var configVar := CellVar(k.name);
        s' := s'[configVar := k.args[0]];
        return KApply(k.name, [KVariable(configVar)]), s';
      }
    }
    if k.KApply? {
      var args;
      args, s' := SplitArgs(k.args, ignore, s');
      k' := KApply(k.name, args);
    } else {
      k' := k;
    }
  }

  method SplitArgs(ks: seq<K>, ignore: set<string>, s: Subst) returns (args: seq<K>, s': Subst)
    ensures args == seq(|ks|, i requires 0 <= i < |ks| => Skeleton(ks[i], ignore))
    ensures s' == CollectArgs(ks, ignore, s)
    decreases ks, 1
  {
    hide Collect, Skeleton;
    args, s' := ks, s;
    for i := 0 to |ks|
      invariant |args| == |ks| && args[i..] == ks[i..]
      invariant forall j :: 0 <= j < i ==> args[j] == Skeleton(ks[j], ignore)
      invariant s' == CollectArgs(ks[..i], ignore, s)
    {
      var arg;
      arg, s' := CarefullySplit(ks[i], ignore, s');
      args := args[i := arg];
      assert ks[..i + 1][..i] == ks[..i];
    }
    assert ks[..|ks|] == ks;
  }

  // ----- restoring -----

  /** A place where the symbolic configuration has the variable `name` and the original `content`. */
  datatype Hole = Hole(name: string, content: K)

  function Holes(k: K, ignore: set<string>): seq<Hole>
    decreases k, 0
  {
    if Cut(k, ignore) then [Hole(CellVar(k.name), k.args[0])]
    else match k
      case KApply(_, args) => HolesOfAll(args, ignore)
      case KVariable(name) => [Hole(name, k)]
      case KToken(_, _) => []
  }

  function HolesOfAll(ks: seq<K>, ignore: set<string>): seq<Hole>
    decreases ks, 1
  {
    if ks == [] then [] else HolesOfAll(ks[..|ks| - 1], ignore) + Holes(ks[|ks| - 1], ignore)
  }

  /** Places of the same name have the same content: cut cells whose names collide held the same, and
      a free variable of that name is what they held. */
  ghost predicate Coherent(holes: seq<Hole>) {
    forall i, j :: 0 <= i < |holes| && 0 <= j < |holes| && holes[i].name == holes[j].name ==>
      holes[i].content == holes[j].content
  }

  ghost predicate FitsOne(s: Subst, h: Hole) {
    if h.name in s then s[h.name] == h.content else h.content == KVariable(h.name)
  }

  ghost predicate Fits(s: Subst, holes: seq<Hole>) {
    forall i :: 0 <= i < |holes| ==> FitsOne(s, holes[i])
  }

  lemma FitsConcat(s: Subst, a: seq<Hole>, b: seq<Hole>)
    ensures Fits(s, a + b) <==> Fits(s, a) && Fits(s, b)
  {
    hide FitsOne;
    if Fits(s, a + b) {
      assert forall i :: 0 <= i < |a| ==> (a + b)[i] == a[i];
      assert forall i :: 0 <= i < |b| ==> (a + b)[|a| + i] == b[i];
    }
  }

  /** A substitution restores the original exactly when it fits every hole. */
  lemma {:induction false} RestoresIfFits(k: K, ignore: set<string>, s: Subst)
    ensures Substitute(s, Skeleton(k, ignore)) == k <==> Fits(s, Holes(k, ignore))
    decreases k, 0
  {
    hide CellVar;
    if Cut(k, ignore) {
      var cut := KApply(k.name, [KVariable(CellVar(k.name))]);
      assert Substitute(s, cut).args == [Substitute(s, KVariable(CellVar(k.name)))];
      assert k == KApply(k.name, [k.args[0]]);
      FitsSingle(s, Hole(CellVar(k.name), k.args[0]));
    } else if k.KApply? {
      RestoresAllIfFits(k.args, ignore, s);
      RestoresArgs(k, ignore, s);
      hide Fits, AllRestored;
      assert Holes(k, ignore) == HolesOfAll(k.args, ignore);
    } else if k.KVariable? {
      FitsSingle(s, Hole(k.name, k));
    } else {
      NothingToFit(s);
    }
  }

  ghost predicate AllRestored(ks: seq<K>, ignore: set<string>, s: Subst) {
    forall i :: 0 <= i < |ks| ==> Substitute(s, Skeleton(ks[i], ignore)) == ks[i]
  }

  /** An uncut application is restored exactly when each of its arguments is. */
  lemma RestoresArgs(k: K, ignore: set<string>, s: Subst)
    requires k.KApply? && !Cut(k, ignore)
    ensures Substitute(s, Skeleton(k, ignore)) == k
       <==> AllRestored(k.args, ignore, s)
  {
    hide Cut;
    var back := Substitute(s, Skeleton(k, ignore));
    assert back.KApply? && back.name == k.name && |back.args| == |k.args|;
    assert forall i :: 0 <= i < |k.args| ==> back.args[i] == Substitute(s, Skeleton(k.args[i], ignore));
    if forall i :: 0 <= i < |k.args| ==> back.args[i] == k.args[i] {
      assert back.args == k.args;
    }
  }

  lemma FitsSingle(s: Subst, h: Hole)
    ensures Fits(s, [h]) <==> FitsOne(s, h)
    ensures FitsOne(s, h) <==> Substitute(s, KVariable(h.name)) == h.content
  {
    assert [h][0] == h;
  }

  lemma {:induction false} RestoresAllIfFits(ks: seq<K>, ignore: set<string>, s: Subst)
    ensures AllRestored(ks, ignore, s) <==> Fits(s, HolesOfAll(ks, ignore))
    decreases ks, 1
  {
    hide Substitute, Skeleton, Holes, Fits;
    if ks != [] {
      var front, last := ks[..|ks| - 1], ks[|ks| - 1];
      RestoresAllIfFits(front, ignore, s);
      RestoresIfFits(last, ignore, s);
      FitsConcat(s, HolesOfAll(front, ignore), Holes(last, ignore));
      assert forall i :: 0 <= i < |front| ==> front[i] == ks[i];
    } else {
      assert Fits(s, []) by { NothingToFit(s); }
    }
  }

  lemma NothingToFit(s: Subst)
    ensures Fits(s, [])
  {
  }

  /** `s` holds contents of holes, has all cut cells, and leaves out only free variables. */
  ghost predicate Covers(s: Subst, holes: seq<Hole>) {
    && (forall n :: n in s ==> exists i :: 0 <= i < |holes| && holes[i] == Hole(n, s[n]))
    && (forall i :: 0 <= i < |holes| && holes[i].name !in s ==> holes[i].content == KVariable(holes[i].name))
  }

  lemma CoherentIfFits(s: Subst, holes: seq<Hole>)
    requires Covers(s, holes)
    ensures Fits(s, holes) <==> Coherent(holes)
  {
  }

  lemma CoversConcat(s: Subst, a: seq<Hole>, t: Subst, b: seq<Hole>)
    requires Covers(s, a)
    requires forall n :: n in s ==> n in t
    requires forall n :: n in t ==> (n in s && t[n] == s[n]) || exists i :: 0 <= i < |b| && b[i] == Hole(n, t[n])
    requires forall i :: 0 <= i < |b| && b[i].name !in t ==> b[i].content == KVariable(b[i].name)
    ensures Covers(t, a + b)
  {
    forall n | n in t ensures exists i :: 0 <= i < |a + b| && (a + b)[i] == Hole(n, t[n]) {
      if n in s && t[n] == s[n] {
        var i :| 0 <= i < |a| && a[i] == Hole(n, s[n]);
        assert (a + b)[i] == Hole(n, t[n]);
      } else {
        var i :| 0 <= i < |b| && b[i] == Hole(n, t[n]);
        assert (a + b)[|a| + i] == Hole(n, t[n]);
      }
    }
    forall i | 0 <= i < |a + b| && (a + b)[i].name !in t
      ensures (a + b)[i].content == KVariable((a + b)[i].name)
    {
      if i < |a| {
        assert (a + b)[i] == a[i];
      } else {
        assert (a + b)[i] == b[i - |a|];
      }
    }
  }

  lemma {:induction false} CollectCovers(k: K, ignore: set<string>, s: Subst, holes: seq<Hole>)
    requires Covers(s, holes)
    ensures Covers(Collect(k, ignore, s), holes + Holes(k, ignore))
    decreases k, 0
  {
    hide CellVar, Covers;
    if Cut(k, ignore) {
      var h := Hole(CellVar(k.name), k.args[0]);
      var t := s[h.name := h.content];
      assert [h][0] == h;
      CoversConcat(s, holes, t, [h]);
    } else {
      match k {
        case KApply(_, args) => CollectArgsCovers(args, ignore, s, holes);
        case KVariable(name) =>
          assert [Hole(name, k)][0] == Hole(name, k);
          CoversConcat(s, holes, s, [Hole(name, k)]);
        case KToken(_, _) => assert holes + [] == holes;
      }
    }
  }

  lemma {:induction false} CollectArgsCovers(ks: seq<K>, ignore: set<string>, s: Subst, holes: seq<Hole>)
    requires Covers(s, holes)
    ensures Covers(CollectArgs(ks, ignore, s), holes + HolesOfAll(ks, ignore))
    decreases ks, 1
  {
    hide Covers, Collect, Holes;
    if ks == [] {
      assert holes + [] == holes;
    } else {
      var front, last := ks[..|ks| - 1], ks[|ks| - 1];
      CollectArgsCovers(front, ignore, s, holes);
      var before := holes + HolesOfAll(front, ignore);
      CollectCovers(last, ignore, CollectArgs(front, ignore, s), before);
      assert before + Holes(last, ignore) == holes + HolesOfAll(ks, ignore);
    }
  }

  /** Substituting the collected cells back returns the original configuration exactly when places of
      the same name had the same content. */
  lemma CarefulSplitRestores(k: K, ignore: set<string>)
    ensures Substitute(Collect(k, ignore, map[]), Skeleton(k, ignore)) == k <==> Coherent(Holes(k, ignore))
  {
    hide Substitute, Skeleton, Holes, Collect, Coherent, Fits;
    NothingCovered();
    CollectCovers(k, ignore, map[], []);
    assert [] + Holes(k, ignore) == Holes(k, ignore);
    CoherentIfFits(Collect(k, ignore, map[]), Holes(k, ignore));
    RestoresIfFits(k, ignore, Collect(k, ignore, map[]));
  }

  /** Every cell of one argument in the symbolic configuration holds its own variable, or it is an
      ignored cell around another cell. */
  predicate CellsCut(k: K, ignore: set<string>) {
    k.KApply? ==>
      && (IsCell(k) && |k.args| == 1 ==>
            k.args[0] == KVariable(CellVar(k.name)) || (k.name in ignore && IsCell(k.args[0])))
      && forall i :: 0 <= i < |k.args| ==> CellsCut(k.args[i], ignore)
  }

  lemma {:induction false} SkeletonCellsCut(k: K, ignore: set<string>)
    ensures CellsCut(Skeleton(k, ignore), ignore)
  {
    hide CellVar;
    if Cut(k, ignore) {
      assert CellsCut(KVariable(CellVar(k.name)), ignore);
    } else if k.KApply? {
      forall i | 0 <= i < |k.args| ensures CellsCut(Skeleton(k.args[i], ignore), ignore) {
        SkeletonCellsCut(k.args[i], ignore);
      }
    }
  }

  /** Exactly which cells are cut: those of one argument, unless an ignored cell holds another cell; that
      one stays, and its argument is split. */
  lemma CutOrKept(name: string, arg: K, ignore: set<string>, s: Subst)
    requires IsCellName(name)
    ensures var k := KApply(name, [arg]);
      if name in ignore && arg.KApply? && IsCellName(arg.name) then
        Skeleton(k, ignore) == KApply(name, [Skeleton(arg, ignore)]) && Collect(k, ignore, s) == Collect(arg, ignore, s)
      else
        && Skeleton(k, ignore) == KApply(name, [KVariable(CellVar(name))])
        && Collect(k, ignore, s) == s[CellVar(name) := arg]
  {
    hide CellVar;
    var k := KApply(name, [arg]);
    assert [arg][..0] == [] && k.args[0] == arg;
    assert CollectArgs([arg], ignore, s) == Collect(arg, ignore, s);
  }

  /** Dashes become underscores, angle brackets go, letters are put in upper case. */
  lemma MangleIs(a: string, b: string, d: char)
    ensures Mangle(a + b) == Mangle(a) + Mangle(b)
    ensures Mangle([d]) == if d == '-' then "_" else if d == '<' || d == '>' then "" else [d]
  {
    MangleConcat(a, b);
    assert [d][1..] == "";
  }

  lemma {:induction false} MangleConcat(a: string, b: string)
    ensures Mangle(a + b) == Mangle(a) + Mangle(b)
  {
    if a == "" {
      assert a + b == b;
    } else {
      assert (a + b)[1..] == a[1..] + b;
      MangleConcat(a[1..], b);
    }
  }

  lemma CellVarExample()
    ensures IsCellName("<k-1>") && CellVar("<k-1>") == "K_1_CELL"
    ensures !IsCellName("k-1>") && !IsCellName("<k-1") && !IsCellName("<")
  {
    assert Mangle("<k-1>") == "k_1" by { MangleExample(); }
    hide Mangle;
    assert Upper("k_1") == "K_1";
  }

  lemma MangleExample()
    ensures Mangle("<k-1>") == "k_1"
  {
    assert "<k-1>"[1..] == "k-1>" && "k-1>"[1..] == "-1>" && "-1>"[1..] == "1>" && "1>"[1..] == ">" && ">"[1..] == "";
    assert Mangle("") == "";
    assert Mangle(">") == "";
    assert Mangle("1>") == "1";
    assert Mangle("-1>") == "_1";
    assert Mangle("k-1>") == "k_1";
  }

  // ----- the direct splitter -----

  /** Only the immediate subcells are cut, whatever number of arguments they have. None: a subcell
      without arguments has no content to take. */
  predicate Splittable(k: K) {
    k.KApply? ==> forall i :: 0 <= i < |k.args| && IsCell(k.args[i]) ==> |k.args[i].args| != 0
  }

  function CutOff(arg: K): K {
    if IsCell(arg) then KApply(arg.name, [KVariable(CellVar(arg.name))]) else arg
  }

  function DirectSkeleton(k: K): K {
    if k.KApply? then KApply(k.name, seq(|k.args|, i requires 0 <= i < |k.args| => CutOff(k.args[i]))) else k
  }

  function DirectCollect(args: seq<K>): Subst
    requires forall i :: 0 <= i < |args| && IsCell(args[i]) ==> |args[i].args| != 0
  {
    if args == [] then map[] else
      var before, last := DirectCollect(args[..|args| - 1]), args[|args| - 1];
      if IsCell(last) then before[CellVar(last.name) := last.args[0]] else before
  }

  method SplitDirectSubcells(k: K) returns (ok: bool, k': K, s: Subst)
    ensures ok <==> Splittable(k)
    ensures ok ==> k' == DirectSkeleton(k) && s == if k.KApply? then DirectCollect(k.args) else map[]
  {
    hide CellVar;
    s := map[];
    if !k.KApply? { return true, k, s; }
    var args := k.args;
    for i := 0 to |k.args|
      invariant |args| == |k.args| && args[i..] == k.args[i..]
      invariant forall j :: 0 <= j < i ==> args[j] == CutOff(k.args[j])
      invariant forall j :: 0 <= j < i && IsCell(k.args[j]) ==> |k.args[j].args| != 0
      invariant s == DirectCollect(k.args[..i])
    {
      var arg := k.args[i];
      if IsCell(arg) {
        if |arg.args| == 0 { return false, k, s; }
        var configVar := CellVar(arg.name);
        s := s[configVar := arg.args[0]];
        args := args[i := KApply(arg.name, [KVariable(configVar)])];
      }
      assert k.args[..i + 1][..i] == k.args[..i];
    }
    assert k.args[..|k.args|] == k.args;
    return true, KApply(k.name, args), s;
  }

  /** Each immediate subcell is cut, every other argument stays. */
  lemma DirectCuts(k: K, i: nat)
    requires k.KApply? && i < |k.args|
    ensures var after, arg := DirectSkeleton(k), k.args[i];
      && after.KApply? && after.name == k.name && |after.args| == |k.args|
      && after.args[i] ==
           if arg.KApply? && IsCellName(arg.name) then KApply(arg.name, [KVariable(CellVar(arg.name))]) else arg
  {
    hide CellVar;
  }

  /** The places of a direct split: the subcells, and every variable of the other arguments. */
  function DirectHoles(args: seq<K>): seq<Hole>
    requires forall i :: 0 <= i < |args| && IsCell(args[i]) ==> |args[i].args| != 0
  {
    if args == [] then [] else
      var last := args[|args| - 1];
      DirectHoles(args[..|args| - 1])
        + if IsCell(last) then [Hole(CellVar(last.name), last.args[0])] else Variables(last)
  }

  function Variables(k: K): seq<Hole>
    decreases k, 0
  {
    match k
    case KApply(_, args) => VariablesOfAll(args)
    case KVariable(name) => [Hole(name, k)]
    case KToken(_, _) => []
  }

  function VariablesOfAll(ks: seq<K>): seq<Hole>
    decreases ks, 1
  {
    if ks == [] then [] else VariablesOfAll(ks[..|ks| - 1]) + Variables(ks[|ks| - 1])
  }

  lemma {:induction false} VariablesFit(k: K, s: Subst)
    ensures Substitute(s, k) == k <==> Fits(s, Variables(k))
    decreases k, 0
  {
    match k {
      case KApply(name, args) =>
        VariablesOfAllFit(args, s);
        var back := Substitute(s, k);
        assert forall i :: 0 <= i < |args| ==> back.args[i] == Substitute(s, args[i]);
        if forall i :: 0 <= i < |args| ==> back.args[i] == args[i] {
          assert back.args == args;
        }
      case KVariable(name) => FitsSingle(s, Hole(name, k));
      case KToken(_, _) =>
    }
  }

  lemma {:induction false} VariablesOfAllFit(ks: seq<K>, s: Subst)
    ensures (forall i :: 0 <= i < |ks| ==> Substitute(s, ks[i]) == ks[i]) <==> Fits(s, VariablesOfAll(ks))
    decreases ks, 1
  {
    hide Substitute, Variables, Fits;
    if ks != [] {
      var front, last := ks[..|ks| - 1], ks[|ks| - 1];
      VariablesOfAllFit(front, s);
      VariablesFit(last, s);
      FitsConcat(s, VariablesOfAll(front), Variables(last));
      assert forall i :: 0 <= i < |front| ==> front[i] == ks[i];
    } else {
      assert Fits(s, []) by { NothingToFit(s); }
    }
  }

  predicate SingleArguments(args: seq<K>) {
    forall i :: 0 <= i < |args| && IsCell(args[i]) ==> |args[i].args| == 1
  }

  /** One argument of a direct split is restored exactly when it is no cell of several arguments and
      its place fits. */
  lemma ArgRestored(arg: K, s: Subst)
    requires IsCell(arg) ==> |arg.args| != 0
    ensures Substitute(s, CutOff(arg)) == arg
       <==> ((IsCell(arg) ==> |arg.args| == 1)
             && Fits(s, if IsCell(arg) then [Hole(CellVar(arg.name), arg.args[0])] else Variables(arg)))
  {
    hide CellVar, Variables;
    if IsCell(arg) {
      var h := Hole(CellVar(arg.name), arg.args[0]);
      FitsSingle(s, h);
      assert Substitute(s, CutOff(arg)) == KApply(arg.name, [Substitute(s, KVariable(h.name))]);
      if |arg.args| == 1 {
        assert arg.args == [h.content];
      }
    } else {
      VariablesFit(arg, s);
    }
  }

  lemma {:induction false} ArgsRestored(args: seq<K>, s: Subst)
    requires forall i :: 0 <= i < |args| && IsCell(args[i]) ==> |args[i].args| != 0
    ensures (forall i :: 0 <= i < |args| ==> Substitute(s, CutOff(args[i])) == args[i])
       <==> (SingleArguments(args) && Fits(s, DirectHoles(args)))
  {
    hide Substitute, CutOff, Variables, Fits, CellVar;
    if args != [] {
      var front, last := args[..|args| - 1], args[|args| - 1];
      assert forall i :: 0 <= i < |front| ==> front[i] == args[i];
      ArgsRestored(front, s);
      ArgRestored(last, s);
      FitsConcat(s, DirectHoles(front),
                 if IsCell(last) then [Hole(CellVar(last.name), last.args[0])] else Variables(last));
    } else {
      NothingToFit(s);
    }
  }

  lemma {:induction false} VariablesAreThemselves(k: K)
    ensures forall i :: 0 <= i < |Variables(k)| ==> Variables(k)[i].content == KVariable(Variables(k)[i].name)
    decreases k, 0
  {
    if k.KApply? {
      AllVariablesAreThemselves(k.args);
    }
  }

  lemma {:induction false} AllVariablesAreThemselves(ks: seq<K>)
    ensures forall i :: 0 <= i < |VariablesOfAll(ks)| ==>
      VariablesOfAll(ks)[i].content == KVariable(VariablesOfAll(ks)[i].name)
    decreases ks, 1
  {
    if ks != [] {
      AllVariablesAreThemselves(ks[..|ks| - 1]);
      VariablesAreThemselves(ks[|ks| - 1]);
    }
  }

  lemma {:induction false} DirectCollectCovers(args: seq<K>)
    requires forall i :: 0 <= i < |args| && IsCell(args[i]) ==> |args[i].args| != 0
    ensures Covers(DirectCollect(args), DirectHoles(args))
  {
    hide CellVar, Variables, Covers;
    if args == [] {
      assert Covers(map[], []) by { NothingCovered(); }
    } else {
      var front, last := args[..|args| - 1], args[|args| - 1];
      assert forall i :: 0 <= i < |front| ==> front[i] == args[i];
      DirectCollectCovers(front);
      if IsCell(last) {
        var h := Hole(CellVar(last.name), last.args[0]);
        assert [h][0] == h;
        CoversConcat(DirectCollect(front), DirectHoles(front), DirectCollect(front)[h.name := h.content], [h]);
      } else {
        VariablesAreThemselves(last);
        CoversConcat(DirectCollect(front), DirectHoles(front), DirectCollect(front), Variables(last));
      }
    }
  }

  lemma NothingCovered()
    ensures Covers(map[], [])
  {
  }

  /** The direct split is undone by substitution exactly when every direct subcell has one argument
      and places of the same name had the same content. */
  lemma DirectSplitRestores(name: string, args: seq<K>)
    requires Splittable(KApply(name, args))
    ensures Substitute(DirectCollect(args), DirectSkeleton(KApply(name, args))) == KApply(name, args)
       <==> (SingleArguments(args) && Coherent(DirectHoles(args)))
  {
    hide CutOff, DirectHoles, DirectCollect, Coherent, Fits, Covers, CellVar, IsCell;
    var s := DirectCollect(args);
    ArgsRestored(args, s);
    DirectCollectCovers(args);
    CoherentIfFits(s, DirectHoles(args));
    var back := Substitute(s, DirectSkeleton(KApply(name, args)));
    assert |back.args| == |args| && forall i :: 0 <= i < |args| ==> back.args[i] == Substitute(s, CutOff(args[i]));
    if forall i :: 0 <= i < |args| ==> back.args[i] == args[i] {
      assert back.args == args;
    }
  }
}
