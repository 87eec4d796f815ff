/** The lexical path normaliser of the key log, on path components. */
module Paths {

  datatype Component = Prefix(drive: string) | RootDir | CurDir | ParentDir | Normal(name: string)

  type Path = seq<Component>

  /** Component sequences that `Path::components` yields: prefix and root only at the front. */
  predicate WellFormed(path: Path) {
    forall i :: 0 <= i < |path| ==>
      && (path[i].Prefix? ==> i == 0)
      && (path[i].RootDir? ==> i == 0 || (i == 1 && path[0].Prefix?))
  }

  predicate IsRelative(path: Path) {
    forall i :: 0 <= i < |path| ==> !path[i].Prefix? && !path[i].RootDir?
  }

  /** No `.` and no `..`. */
  predicate IsPlain(path: Path) {
    forall i :: 0 <= i < |path| ==> !path[i].CurDir? && !path[i].ParentDir?
  }

  /** `PathBuf::pop`: a root or prefix has no parent. */
  function Pop(ret: Path): Path {
    if ret == [] || ret[|ret| - 1].Prefix? || ret[|ret| - 1].RootDir? then ret else ret[..|ret| - 1]
  }

  /** `PathBuf::push` of the root: what a prefix leaves stays, the rest is replaced. */
  function PushRoot(ret: Path): Path {
    (if ret != [] && ret[0].Prefix? then [ret[0]] else []) + [RootDir]
  }

  function Visit(ret: Path, c: Component): Path {
    match c
    case Prefix(_) => ret + [c]
    case RootDir => PushRoot(ret)
    case CurDir => ret
    case ParentDir => Pop(ret)
    case Normal(_) => ret + [c]
  }

  function Fold(ret: Path, path: Path): Path {
    if path == [] then ret else Visit(Fold(ret, path[..|path| - 1]), path[|path| - 1])
  }

  function Normalize(path: Path): Path {
    Fold([], path)
  }

  lemma FoldStep(path: Path, i: nat)
    requires i < |path|
    ensures Fold([], path[..i + 1]) == Visit(Fold([], path[..i]), path[i])
  {
    assert path[..i + 1][..i] == path[..i];
  }

  /** `normalize_path`: a stack of components, with the prefix taken off before the loop. */
  method NormalizePath(path: Path) returns (ret: Path)
    requires WellFormed(path)
    ensures ret == Normalize(path)
  {
    ret := [];
    var first := 0;
    if path != [] && path[0].Prefix? {
      FoldStep(path, 0);
      ret := [path[0]];
      first := 1;
    }
    for i := first to |path|
      invariant ret == Fold([], path[..i])
    {
      FoldStep(path, i);
      match path[i] {
        case Prefix(_) => assert false;
        case RootDir => ret := PushRoot(ret);
        case CurDir =>
        case ParentDir => ret := Pop(ret);
        case Normal(_) => ret := ret + [path[i]];
      }
    }
    assert path[..|path|] == path;
  }

  // ---------- what survives ----------

  /** The prefix and root at the front. */
  function Anchor(path: Path): Path {
    if path == [] then []
    else if path[0].Prefix? then
      if |path| > 1 && path[1].RootDir? then path[..2] else path[..1]
    else if path[0].RootDir? then path[..1]
    else []
  }

  /**
   Reading a relative path from its end: `debt` counts the `..` still to be paid. A name is kept
   exactly when no `..` behind it cancels it.
   */
  function Surviving(path: Path, debt: nat): Path {
    if path == [] then []
    else
      var init, last := path[..|path| - 1], path[|path| - 1];
      match last
      case ParentDir => Surviving(init, debt + 1)
      case Normal(_) => if debt > 0 then Surviving(init, debt - 1) else Surviving(init, 0) + [last]
      case _ => Surviving(init, debt)
  }

  function DropLast(path: Path, n: nat): Path {
    if n >= |path| then [] else path[..|path| - n]
  }

  predicate IsAnchor(path: Path) {
    path == Anchor(path)
  }

  /** The forward stack computes what the backward reading keeps, above an anchor that never moves. */
  lemma {:induction false} StackKeepsSurvivors(anchor: Path, path: Path, debt: nat)
    requires IsAnchor(anchor) && IsRelative(path)
    ensures var stack := Fold(anchor, path);
            |anchor| <= |stack| && stack[..|anchor|] == anchor
            && IsRelative(stack[|anchor|..]) && IsPlain(stack[|anchor|..])
            && DropLast(stack[|anchor|..], debt) == Surviving(path, debt)
  {
    if path == [] {
      assert Fold(anchor, path) == anchor;
    } else {
      var init, last := path[..|path| - 1], path[|path| - 1];
      var below := if last.ParentDir? then debt + 1 else if last.Normal? && debt > 0 then debt - 1 else debt;
      StackKeepsSurvivors(anchor, init, below);
      var before := Fold(anchor, init)[|anchor|..];
      match last {
        case Normal(_) =>
          var stack := Fold(anchor, path);
          assert stack[|anchor|..] == before + [last];
          assert stack[..|anchor|] == anchor;
        case ParentDir =>
          PopAbove(anchor, Fold(anchor, init));
        case _ =>
      }
    }
  }

  lemma PopAbove(anchor: Path, stack: Path)
    requires IsAnchor(anchor)
    requires |anchor| <= |stack| && stack[..|anchor|] == anchor && IsRelative(stack[|anchor|..])
    ensures var rest := stack[|anchor|..];
            Pop(stack) == anchor + DropLast(rest, 1)
  {
  }

  lemma {:induction false} FoldConcat(ret: Path, a: Path, b: Path)
    ensures Fold(ret, a + b) == Fold(Fold(ret, a), b)
  {
    if b == [] {
      assert a + b == a;
    } else {
      var n := |b| - 1;
      FoldConcat(ret, a, b[..n]);
      assert (a + b)[..|a + b| - 1] == a + b[..n];
      assert (a + b)[|a + b| - 1] == b[n];
    }
  }

  lemma AnchorSplit(path: Path)
    requires WellFormed(path)
    ensures var anchor := Anchor(path);
            && IsAnchor(anchor) && path == anchor + path[|anchor|..]
            && IsRelative(path[|anchor|..]) && Fold([], anchor) == anchor
  {
    var anchor := Anchor(path);
    if |anchor| > 0 {
      assert anchor[..0] == [];
    }
    if |anchor| == 2 {
      assert anchor[..1][..0] == [] && Fold([], anchor[..1]) == [path[0]];
    }
  }

  /** Every well-formed path: the anchor is kept, and above it stand the surviving names. */
  lemma NormalizeExact(path: Path)
    requires WellFormed(path)
    ensures var anchor := Anchor(path);
            Normalize(path) == anchor + Surviving(path[|anchor|..], 0)
    ensures WellFormed(Normalize(path)) && IsPlain(Normalize(path))
    ensures Anchor(Normalize(path)) == Anchor(path)
  {
    var anchor := Anchor(path);
    var rest := path[|anchor|..];
    AnchorSplit(path);
    FoldConcat([], anchor, rest);
    StackKeepsSurvivors(anchor, rest, 0);
    var stack := Fold(anchor, rest);
    assert stack == anchor + stack[|anchor|..];
  }

  lemma {:induction false} PlainSurvives(path: Path)
    requires IsRelative(path) && IsPlain(path)
    ensures Surviving(path, 0) == path
  {
    if path != [] {
      PlainSurvives(path[..|path| - 1]);
    }
  }

  /** The fixed points are exactly the paths without `.` and `..`; hence normalising twice is normalising once. */
  lemma NormalizeFixed(path: Path)
    requires WellFormed(path)
    ensures Normalize(path) == path <==> IsPlain(path)
    ensures Normalize(Normalize(path)) == Normalize(path)
  {
    NormalizeExact(path);
    PlainFixed(Normalize(path));
    if IsPlain(path) {
      PlainFixed(path);
    }
  }

  lemma PlainFixed(path: Path)
    requires WellFormed(path) && IsPlain(path)
    ensures Normalize(path) == path
  {
    AnchorSplit(path);
    NormalizeExact(path);
    PlainSurvives(path[|Anchor(path)|..]);
  }

  /** `Path::join` with a relative path; a leading `.` is only a component of a whole path. */
  function Joined(a: Path, b: Path): Path {
    a + if a != [] && b != [] && b[0].CurDir? then b[1..] else b
  }

  /** Where `Path::components` leaves a `.`: in front of everything or nowhere. */
  predicate OnlyLeadingDot(path: Path) {
    forall i :: 1 <= i < |path| ==> !path[i].CurDir?
  }

  function WithoutDots(path: Path): Path {
    if path == [] then [] else (if path[0].CurDir? then [] else [path[0]]) + WithoutDots(path[1..])
  }

  lemma {:induction false} WithoutDotsConcat(a: Path, b: Path)
    ensures WithoutDots(a + b) == WithoutDots(a) + WithoutDots(b)
  {
    if a == [] {
      assert a + b == b;
    } else {
      WithoutDotsConcat(a[1..], b);
      assert (a + b)[1..] == a[1..] + b && (a + b)[0] == a[0];
    }
  }

  /** Joining yields a component sequence again, with all components of both but an inner `.`. */
  lemma JoinedComponents(a: Path, b: Path)
    requires WellFormed(a) && IsRelative(b) && OnlyLeadingDot(a) && OnlyLeadingDot(b)
    ensures WellFormed(Joined(a, b)) && OnlyLeadingDot(Joined(a, b))
    ensures WithoutDots(Joined(a, b)) == WithoutDots(a) + WithoutDots(b)
    ensures a == [] ==> Joined(a, b) == b
  {
    WithoutDotsConcat(a, Joined(a, b)[|a|..]);
    assert Joined(a, b) == a + Joined(a, b)[|a|..];
  }

  lemma FoldJoined(a: Path, b: Path)
    ensures Normalize(Joined(a, b)) == Fold(Normalize(a), b)
  {
    FoldConcat([], a, b);
    if a != [] && b != [] && b[0].CurDir? {
      FoldConcat([], a, b[1..]);
      FoldConcat(Normalize(a), [b[0]], b[1..]);
      assert b == [b[0]] + b[1..] && [b[0]][..0] == [];
      assert Fold(Normalize(a), [b[0]]) == Normalize(a);
    }
  }

  /** Normalising the base first makes no difference to a joined relative path. */
  lemma JoinLaw(a: Path, b: Path)
    requires WellFormed(a) && IsRelative(b)
    ensures Normalize(Joined(a, b)) == Normalize(Joined(Normalize(a), b))
  {
    FoldJoined(a, b);
    FoldJoined(Normalize(a), b);
    NormalizeFixed(a);
  }

  /** How many `..` of a relative path find no name before them to cancel. */
  function Unpaid(path: Path): nat {
    if path == [] then 0
    else
      var init := path[..|path| - 1];
      Unpaid(init) + if path[|path| - 1].ParentDir? && Surviving(init, 0) == [] then 1 else 0
  }

  lemma SurvivingDebt(path: Path, debt: nat)
    requires IsRelative(path)
    ensures Surviving(path, debt) == DropLast(Surviving(path, 0), debt)
    ensures Normalize(path) == Surviving(path, 0)
    ensures IsRelative(Surviving(path, 0)) && IsPlain(Surviving(path, 0))
  {
    StackKeepsSurvivors([], path, debt);
    StackKeepsSurvivors([], path, 0);
  }

  /** On any stack, a relative path takes its unpaid `..` off the names and adds what survives of it. */
  lemma {:induction false} FoldAbove(anchor: Path, names: Path, path: Path)
    requires IsAnchor(anchor) && IsRelative(names) && IsRelative(path)
    ensures Fold(anchor + names, path) == anchor + DropLast(names, Unpaid(path)) + Surviving(path, 0)
  {
    if path != [] {
      var init, last := path[..|path| - 1], path[|path| - 1];
      var kept, rest := DropLast(names, Unpaid(init)), Surviving(init, 0);
      FoldAbove(anchor, names, init);
      SurvivingDebt(init, 1);
      VisitAbove(anchor, kept, rest, last);
      assert DropLast(kept, 1) == DropLast(names, Unpaid(init) + 1);
    }
  }

  lemma VisitAbove(anchor: Path, kept: Path, rest: Path, c: Component)
    requires IsAnchor(anchor) && IsRelative(kept) && IsRelative(rest) && IsRelative([c])
    ensures Visit(anchor + kept + rest, c)
         == match c
            case CurDir => anchor + kept + rest
            case ParentDir =>
              if rest == [] then anchor + DropLast(kept, 1) + rest else anchor + kept + DropLast(rest, 1)
            case _ => anchor + kept + (rest + [c])
  {
    assert [c][0] == c;
    var stack := anchor + kept + rest;
    if c.ParentDir? {
      assert stack[..|anchor|] == anchor && stack[|anchor|..] == kept + rest;
      PopAbove(anchor, stack);
      assert rest == [] ==> kept + rest == kept;
      assert rest != [] ==> DropLast(kept + rest, 1) == kept + DropLast(rest, 1);
    }
  }

  lemma {:induction false} PlainPaid(path: Path)
    requires IsPlain(path)
    ensures Unpaid(path) == 0
  {
    if path != [] {
      PlainPaid(path[..|path| - 1]);
    }
  }

  /**
   Normalising the relative part first is safe exactly when none of its `..` reaches above it, or
   when the base has no name left for one to remove.
   */
  lemma RelativeJoinLaw(a: Path, b: Path)
    requires WellFormed(a) && IsRelative(b)
    ensures Normalize(Joined(a, Normalize(b))) == Normalize(Joined(a, b))
       <==> Unpaid(b) == 0 || Normalize(a) == Anchor(a)
  {
    var anchor := Anchor(a);
    var names := Surviving(a[|anchor|..], 0);
    AnchorSplit(a);
    NormalizeExact(a);
    SurvivingDebt(a[|anchor|..], 0);
    FoldJoined(a, b);
    FoldJoined(a, Normalize(b));
    FoldAbove(anchor, names, b);
    SurvivingDebt(b, 0);
    PlainPaid(Normalize(b));
    PlainSurvives(Normalize(b));
    FoldAbove(anchor, names, Normalize(b));
    assert DropLast(names, 0) == names;
  }

  lemma FoldOne(ret: Path, c: Component)
    ensures Fold(ret, [c]) == Visit(ret, c)
  {
    assert [c][..0] == [];
    assert Fold(ret, [c][..0]) == ret;
  }

  lemma UpAndHere(up: Path, here: Path, name: string)
    requires up == [ParentDir] + here && here == [Normal(name)]
    ensures Normalize(up) == here == Normalize(here)
    ensures Unpaid(up) == 1
  {
    FoldConcat([], [ParentDir], here);
    FoldOne([], ParentDir);
    FoldOne([], here[0]);
    assert up[..1] == [ParentDir] && [ParentDir][..0] == [];
    assert Unpaid([ParentDir]) == 1;
  }

  /** `../k` and `k` normalise alike, yet below any base with a name left, such as `/a`, they are different files. */
  lemma ParentForgotten(base: Path, up: Path, here: Path, name: string)
    requires WellFormed(base) && Normalize(base) != Anchor(base)
    requires up == [ParentDir] + here && here == [Normal(name)]
    ensures Normalize(up) == Normalize(here)
    ensures Normalize(Joined(base, up)) != Normalize(Joined(base, here))
  {
    UpAndHere(up, here, name);
    RelativeJoinLaw(base, up);
  }

  lemma NamedBase(base: Path)
    requires base == [RootDir, Normal("a")]
    ensures WellFormed(base) && Normalize(base) != Anchor(base)
  {
    PlainFixed(base);
  }
}
