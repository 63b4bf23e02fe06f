/** PathExpression: a list of fragments evaluated one after the other, and its
    Writable subclass, which accepts only writable fragments. */
module PathExpressions {
  import opened Wrappers
  import opened Json
  import opened Expressions

  /** The fragments one constructor argument contributes: the fragments of a path,
      writable or not, or the expression itself otherwise (PathExpression.wrapAsPath). */
  function WrapAsPath(e: Expr): seq<Expr>
  {
    if e.PathExpr? || e.WritablePathExpr? then e.fragments else [e]
  }

  /** The fragment list the list constructor builds from its arguments. */
  function Flatten(args: seq<Expr>): seq<Expr>
  {
    if args == [] then [] else Flatten(args[..|args| - 1]) + WrapAsPath(args[|args| - 1])
  }

  /** The expression kinds that implement WritableEvaluable: PathExpression.Writable
      itself, and the input selections and field accesses it is built from. */
  predicate WritableEvaluable(e: Expr)
  {
    e.WritablePathExpr? || e.InputSelection? || e.ObjectAccess?
  }

  /** Flattening does not change what a path computes: the flattened path evaluates
      like the arguments applied one after the other. */
  lemma {:induction false} FlattenPreservesEvaluation(args: seq<Expr>, node: Json, ext: Externals)
    ensures EvalPath(Flatten(args), node, ext) == EvalPath(args, node, ext)
    decreases |args|
  {
    if args != [] {
      var init, last := args[..|args| - 1], args[|args| - 1];
      assert args == init + [last];
      var mid := EvalPath(init, node, ext);
      assert EvalPath(Flatten(init), node, ext) == mid by {
        FlattenPreservesEvaluation(init, node, ext);
      }
      assert EvalPath(Flatten(args), node, ext) == EvalPath(WrapAsPath(last), mid, ext) by {
        EvalPathAppend(Flatten(init), WrapAsPath(last), node, ext);
      }
      assert EvalPath(args, node, ext) == EvalPath([last], mid, ext) by {
        EvalPathAppend(init, [last], node, ext);
      }
      WrapAsPathEvaluates(last, mid, ext);
    }
  }

  /** A wrapped argument evaluates like the argument itself. */
  lemma WrapAsPathEvaluates(e: Expr, node: Json, ext: Externals)
    ensures EvalPath(WrapAsPath(e), node, ext) == EvalPath([e], node, ext)
  {
    assert [e][1..] == [];
  }

  /** `s` contains `find` as a contiguous run starting at `i`. */
  predicate OccursAt(s: seq<Expr>, find: seq<Expr>, i: nat)
  {
    i + |find| <= |s| && s[i..i + |find|] == find
  }

  /** Reference definition of replacing a fragment sequence: scan from the left, replace
      every occurrence of `find` by `repl` and resume right after the inserted fragments;
      an empty `find` replaces nothing. */
  function ReplaceAll(s: seq<Expr>, find: seq<Expr>, repl: seq<Expr>): seq<Expr>
    decreases |s|
  {
    if |find| == 0 || |s| < |find| then s
    else if s[..|find|] == find then repl + ReplaceAll(s[|find|..], find, repl)
    else [s[0]] + ReplaceAll(s[1..], find, repl)
  }

  /** Where the sought fragments do not occur, replacing leaves the path unchanged. */
  lemma {:induction false} ReplaceAllAbsent(s: seq<Expr>, find: seq<Expr>, repl: seq<Expr>)
    requires forall i: nat :: !OccursAt(s, find, i)
    ensures ReplaceAll(s, find, repl) == s
    decreases |s|
  {
    if |find| != 0 && |s| >= |find| {
      assert !OccursAt(s, find, 0);
      assert s[..|find|] != find;
      forall i: nat ensures !OccursAt(s[1..], find, i) {
        assert !OccursAt(s, find, i + 1);
        if i + |find| <= |s[1..]| {
          assert s[1..][i..i + |find|] == s[i + 1..i + 1 + |find|];
        }
      }
      ReplaceAllAbsent(s[1..], find, repl);
      assert [s[0]] + s[1..] == s;
    }
  }

  /** Replacing fragments by fragments that compute the same thing does not change
      what the path computes. */
  lemma {:induction false} ReplaceAllPreservesEvaluation(s: seq<Expr>, find: seq<Expr>, repl: seq<Expr>, node: Json, ext: Externals)
    requires forall n: Json :: EvalPath(find, n, ext) == EvalPath(repl, n, ext)
    ensures EvalPath(ReplaceAll(s, find, repl), node, ext) == EvalPath(s, node, ext)
    decreases |s|
  {
    if |find| == 0 || |s| < |find| {
    } else if s[..|find|] == find {
      var rest := s[|find|..];
      assert s == find + rest;
      ReplaceAllPreservesEvaluation(rest, find, repl, EvalPath(repl, node, ext), ext);
      EvalPathAppend(repl, ReplaceAll(rest, find, repl), node, ext);
      EvalPathAppend(find, rest, node, ext);
    } else {
      assert s == [s[0]] + s[1..];
      ReplaceAllPreservesEvaluation(s[1..], find, repl, Eval(s[0], node, ext), ext);
      assert ([s[0]] + ReplaceAll(s[1..], find, repl))[1..] == ReplaceAll(s[1..], find, repl);
    }
  }

  // ---------------------------------------------------------------------------
  // The loop of PathExpression.replace as written, one iteration at a time.
  // ---------------------------------------------------------------------------

  /** The variables of the labelled loop: the fragment list, `startIndex` and `size`. */
  datatype ReplaceLoop = ReplaceLoop(fragments: seq<Expr>, startIndex: nat, size: int)

  /** The bound the loop maintains: `size == fragments.size() - findSize + 1`. */
  predicate LoopBound(st: ReplaceLoop, find: seq<Expr>)
  {
    st.size == |st.fragments| - |find| + 1
  }

  /** The loop condition `startIndex < size`. */
  predicate Running(st: ReplaceLoop)
  {
    st.startIndex < st.size
  }

  /** The loop state before the first iteration. */
  function StartLoop(fragments: seq<Expr>, find: seq<Expr>): ReplaceLoop
  {
    ReplaceLoop(fragments, 0, |fragments| - |find| + 1)
  }

  /** One iteration as written: compare the fragments at `startIndex`; on a match remove
      them, insert the replacement and shrink `size` by `findSize - replaceSize`; then
      `startIndex++` (the resuming `startIndex += replaceSize` is commented out).
      While the loop runs, every compared index `startIndex + index` is in range, and the
      iteration keeps the bound. */
  function StepAsWritten(st: ReplaceLoop, find: seq<Expr>, repl: seq<Expr>): (next: ReplaceLoop)
    requires LoopBound(st, find) && Running(st)
    ensures st.startIndex + |find| <= |st.fragments|
    ensures LoopBound(next, find)
    ensures next.startIndex == st.startIndex + 1
  {
    var i := st.startIndex;
    if st.fragments[i..i + |find|] == find then
      ReplaceLoop(st.fragments[..i] + repl + st.fragments[i + |find|..], i + 1, st.size - (|find| - |repl|))
    else
      ReplaceLoop(st.fragments, i + 1, st.size)
  }

  /** At most `fuel` iterations of the loop as written. */
  function RunAsWritten(st: ReplaceLoop, find: seq<Expr>, repl: seq<Expr>, fuel: nat): (last: ReplaceLoop)
    requires LoopBound(st, find)
    ensures LoopBound(last, find)
    decreases fuel
  {
    if fuel == 0 || !Running(st) then st else RunAsWritten(StepAsWritten(st, find, repl), find, repl, fuel - 1)
  }

  /** As written, the loop never changes a path in which the sought fragments do not occur. */
  lemma {:induction false} AsWrittenAbsentUnchanged(st: ReplaceLoop, find: seq<Expr>, repl: seq<Expr>, fuel: nat)
    requires LoopBound(st, find)
    requires forall i: nat :: !OccursAt(st.fragments, find, i)
    ensures RunAsWritten(st, find, repl, fuel).fragments == st.fragments
    decreases fuel
  {
    if fuel != 0 && Running(st) {
      assert !OccursAt(st.fragments, find, st.startIndex);
      AsWrittenAbsentUnchanged(StepAsWritten(st, find, repl), find, repl, fuel - 1);
    }
  }

  /** `n` copies of one fragment. */
  function Copies(x: Expr, n: nat): seq<Expr>
  {
    seq(n, _ => x)
  }

  /** Finding, as written: replacing the fragment `x` by the path `x x` in the path `x`
      never ends; after every number of iterations the loop is still running. */
  lemma AsWrittenDivergesOnSelfExtendingReplacement(x: Expr, fuel: nat)
    ensures Running(RunAsWritten(StartLoop([x], [x]), [x], [x, x], fuel))
  {
    assert StartLoop([x], [x]) == ReplaceLoop(Copies(x, 1), 0, 1);
    SelfExtendingRun(x, 0, fuel);
  }

  lemma {:induction false} SelfExtendingRun(x: Expr, k: nat, fuel: nat)
    ensures RunAsWritten(ReplaceLoop(Copies(x, k + 1), k, k + 1), [x], [x, x], fuel)
            == ReplaceLoop(Copies(x, k + 1 + fuel), k + fuel, k + 1 + fuel)
    decreases fuel
  {
    if fuel != 0 {
      var st := ReplaceLoop(Copies(x, k + 1), k, k + 1);
      var c := Copies(x, k + 1);
      assert c[k..k + 1] == [x];
      assert c[..k] + [x, x] + c[k + 1..] == Copies(x, k + 2);
      assert StepAsWritten(st, [x], [x, x]) == ReplaceLoop(Copies(x, k + 2), k + 1, k + 2);
      SelfExtendingRun(x, k + 1, fuel - 1);
    }
  }

  /** As written, an empty sought path with a non-empty replacement never ends: every
      iteration matches, inserts the replacement and grows `size`. */
  lemma {:induction false} AsWrittenDivergesOnEmptySoughtPath(st: ReplaceLoop, repl: seq<Expr>, fuel: nat)
    requires LoopBound(st, []) && Running(st)
    requires |repl| >= 1
    ensures Running(RunAsWritten(st, [], repl, fuel))
    decreases fuel
  {
    if fuel != 0 {
      AsWrittenDivergesOnEmptySoughtPath(StepAsWritten(st, [], repl), repl, fuel - 1);
    }
  }

  /** Finding, as written: removing `x` from the path `x x` (replacing it by the empty
      path) stops with `x` still in place, because `startIndex++` steps over the fragment
      that moved into the removed position; the reference definition removes both. */
  lemma AsWrittenSkipsAfterRemoval(x: Expr)
    ensures !Running(RunAsWritten(StartLoop([x, x], [x]), [x], [], 2))
    ensures RunAsWritten(StartLoop([x, x], [x]), [x], [], 2).fragments == [x]
    ensures ReplaceAll([x, x], [x], []) == []
  {
    var s0 := StartLoop([x, x], [x]);
    assert [x, x][0..1] == [x];
    var s1 := StepAsWritten(s0, [x], []);
    assert s1 == ReplaceLoop([x], 1, 1);
    assert [x, x][..1] == [x] && [x, x][1..] == [x];
    assert ReplaceAll([x], [x], []) == [] + ReplaceAll([], [x], []);
  }

  /** The invariant relating a loop state to the reference result: the part before
      `startIndex` is final and the rest still has to be replaced. */
  predicate OnTrack(st: ReplaceLoop, find: seq<Expr>, repl: seq<Expr>, target: seq<Expr>)
  {
    st.startIndex <= |st.fragments|
    && st.fragments[..st.startIndex] + ReplaceAll(st.fragments[st.startIndex..], find, repl) == target
  }

  /** When the replacement is a single fragment (the usual call, `replace(expr, fragment)`
      with a fragment that is not a path) and the sought path is not empty, the loop as
      written ends within `fragments.size() + 1` iterations with the reference result. */
  lemma AsWrittenAgreesForSingleFragment(fragments: seq<Expr>, find: seq<Expr>, repl: seq<Expr>)
    requires |find| >= 1 && |repl| == 1
    ensures var last := RunAsWritten(StartLoop(fragments, find), find, repl, |fragments| + 1);
            !Running(last) && last.fragments == ReplaceAll(fragments, find, repl)
  {
    var st := StartLoop(fragments, find);
    assert fragments[..0] + fragments[0..] == fragments;
    SingleFragmentRun(st, find, repl, ReplaceAll(fragments, find, repl), |fragments| + 1);
  }

  lemma {:induction false} SingleFragmentRun(st: ReplaceLoop, find: seq<Expr>, repl: seq<Expr>, target: seq<Expr>, fuel: nat)
    requires |find| >= 1 && |repl| == 1
    requires LoopBound(st, find) && OnTrack(st, find, repl, target)
    requires fuel >= st.size - st.startIndex
    ensures var last := RunAsWritten(st, find, repl, fuel);
            !Running(last) && last.fragments == target
    decreases fuel
  {
    if !Running(st) {
      StoppedOnTrack(st, find, repl, target);
    } else {
      var next := StepAsWritten(st, find, repl);
      SingleFragmentStepKeepsTrack(st, find, repl, target);
      SingleFragmentRun(next, find, repl, target, fuel - 1);
    }
  }

  /** A stopped loop that is on track holds the reference result. */
  lemma StoppedOnTrack(st: ReplaceLoop, find: seq<Expr>, repl: seq<Expr>, target: seq<Expr>)
    requires |find| >= 1 && LoopBound(st, find) && OnTrack(st, find, repl, target) && !Running(st)
    ensures st.fragments == target
  {
    var rest := st.fragments[st.startIndex..];
    assert ReplaceAll(rest, find, repl) == rest;
    assert st.fragments[..st.startIndex] + rest == st.fragments;
  }

  /** With a single replacement fragment, an iteration as written stays on track and
      brings the loop closer to its end. */
  lemma SingleFragmentStepKeepsTrack(st: ReplaceLoop, find: seq<Expr>, repl: seq<Expr>, target: seq<Expr>)
    requires |find| >= 1 && |repl| == 1
    requires LoopBound(st, find) && Running(st) && OnTrack(st, find, repl, target)
    ensures var next := StepAsWritten(st, find, repl);
            OnTrack(next, find, repl, target) && next.size - next.startIndex < st.size - st.startIndex
  {
    var i := st.startIndex;
    var next := StepAsWritten(st, find, repl);
    if OccursAt(st.fragments, find, i) {
      MatchKeepsTrack(st, find, repl, target, next);
    } else {
      MismatchKeepsTrack(st, find, repl, target, next);
    }
  }

  /** One step of the reference definition at position `i`: a match there contributes
      the replacement and skips the sought fragments, a mismatch keeps one fragment. */
  lemma ReplaceAllUnfold(s: seq<Expr>, find: seq<Expr>, repl: seq<Expr>, i: nat)
    requires |find| >= 1 && i + |find| <= |s|
    ensures OccursAt(s, find, i) ==> ReplaceAll(s[i..], find, repl) == repl + ReplaceAll(s[i + |find|..], find, repl)
    ensures !OccursAt(s, find, i) ==> ReplaceAll(s[i..], find, repl) == [s[i]] + ReplaceAll(s[i + 1..], find, repl)
  {
    var rest := s[i..];
    assert rest[..|find|] == s[i..i + |find|];
    assert rest[|find|..] == s[i + |find|..];
    assert rest[1..] == s[i + 1..];
  }

  /** On a match, replacing and resuming right after the inserted fragments keeps the
      state on track. */
  lemma MatchKeepsTrack(st: ReplaceLoop, find: seq<Expr>, repl: seq<Expr>, target: seq<Expr>, next: ReplaceLoop)
    requires |find| >= 1 && LoopBound(st, find) && Running(st) && OnTrack(st, find, repl, target)
    requires OccursAt(st.fragments, find, st.startIndex)
    requires next == ReplaceLoop(st.fragments[..st.startIndex] + repl + st.fragments[st.startIndex + |find|..],
                                 st.startIndex + |repl|, st.size - (|find| - |repl|))
    ensures LoopBound(next, find) && OnTrack(next, find, repl, target)
  {
    var i := st.startIndex;
    var f := st.fragments;
    var tail := f[i + |find|..];
    var done := ReplaceAll(tail, find, repl);
    assert next.fragments[..next.startIndex] == f[..i] + repl && next.fragments[next.startIndex..] == tail by {
      SpliceParts(f[..i], repl, tail);
    }
    assert f[..i] + repl + done == target by {
      assert ReplaceAll(f[i..], find, repl) == repl + done by {
        ReplaceAllUnfold(f, find, repl, i);
      }
      ConcatAssociates(f[..i], repl, done);
    }
  }

  /** On a mismatch, moving on by one fragment keeps the state on track. */
  lemma MismatchKeepsTrack(st: ReplaceLoop, find: seq<Expr>, repl: seq<Expr>, target: seq<Expr>, next: ReplaceLoop)
    requires |find| >= 1 && LoopBound(st, find) && Running(st) && OnTrack(st, find, repl, target)
    requires !OccursAt(st.fragments, find, st.startIndex)
    requires next == ReplaceLoop(st.fragments, st.startIndex + 1, st.size)
    ensures LoopBound(next, find) && OnTrack(next, find, repl, target)
  {
    var i := st.startIndex;
    var f := st.fragments;
    var done := ReplaceAll(f[i + 1..], find, repl);
    assert ReplaceAll(f[i..], find, repl) == [f[i]] + done by {
      ReplaceAllUnfold(f, find, repl, i);
    }
    assert f[..i + 1] == f[..i] + [f[i]];
    ConcatAssociates(f[..i], [f[i]], done);
  }

  /** Cutting a concatenation of three parts after the first two. */
  lemma SpliceParts<T>(a: seq<T>, b: seq<T>, c: seq<T>)
    ensures (a + b + c)[..|a| + |b|] == a + b
    ensures (a + b + c)[|a| + |b|..] == c
  {
  }

  lemma ConcatAssociates<T>(a: seq<T>, b: seq<T>, c: seq<T>)
    ensures a + b + c == a + (b + c)
  {
  }

  /** The inner loop of replace: whether the fragments from `startIndex` on equal the
      sought fragments, compared one by one and stopping at the first difference. */
  method MatchesAt(fragments: seq<Expr>, pathToFind: seq<Expr>, startIndex: nat) returns (matched: bool)
    requires startIndex + |pathToFind| <= |fragments|
    ensures matched == OccursAt(fragments, pathToFind, startIndex)
  {
    matched := true;
    var index := 0;
    while index < |pathToFind| && matched
      invariant 0 <= index <= |pathToFind|
      invariant matched ==> fragments[startIndex..startIndex + index] == pathToFind[..index]
      invariant !matched ==> index < |pathToFind| && fragments[startIndex + index] != pathToFind[index]
      decreases |pathToFind| - index, matched
    {
      if fragments[startIndex + index] != pathToFind[index] {
        matched := false;
      } else {
        assert fragments[startIndex..startIndex + index + 1] == fragments[startIndex..startIndex + index] + [pathToFind[index]];
        assert pathToFind[..index + 1] == pathToFind[..index] + [pathToFind[index]];
        index := index + 1;
      }
    }
    if matched {
      assert pathToFind[..index] == pathToFind;
    } else {
      assert fragments[startIndex..startIndex + |pathToFind|][index] != pathToFind[index];
    }
  }

  /** The labelled loop of replace for a non-empty sought path, under the bound
      `size == fragments.size() - findSize + 1`; after a match the scan resumes right
      after the inserted fragments. */
  method ReplaceFragments(fragments: seq<Expr>, pathToFind: seq<Expr>, replacePath: seq<Expr>) returns (path: seq<Expr>)
    requires |pathToFind| >= 1
    ensures path == ReplaceAll(fragments, pathToFind, replacePath)
  {
    var findSize := |pathToFind|;
    ghost var target := ReplaceAll(fragments, pathToFind, replacePath);
    var size := |fragments| - findSize + 1;
    var startIndex: nat := 0;
    path := fragments;
    assert path[..0] == [] && path[0..] == path;
    while startIndex < size
      invariant size == |path| - findSize + 1
      invariant OnTrack(ReplaceLoop(path, startIndex, size), pathToFind, replacePath, target)
      decreases size - startIndex
    {
      var matched := MatchesAt(path, pathToFind, startIndex);
      ghost var st := ReplaceLoop(path, startIndex, size);
      if matched {
        path := path[..startIndex] + replacePath + path[startIndex + findSize..];
        size := size - (findSize - |replacePath|);
        startIndex := startIndex + |replacePath|;
        MatchKeepsTrack(st, pathToFind, replacePath, target, ReplaceLoop(path, startIndex, size));
      } else {
        startIndex := startIndex + 1;
        MismatchKeepsTrack(st, pathToFind, replacePath, target, ReplaceLoop(path, startIndex, size));
      }
    }
    StoppedOnTrack(ReplaceLoop(path, startIndex, size), pathToFind, replacePath, target);
  }

  /** A Sopremo path expression. `writable` is true for an instance of
      PathExpression.Writable, whose `add` accepts only writable fragments. */
  class PathExpression {
    var fragments: seq<Expr>
    const writable: bool

    /** PathExpression(List fragments): a path argument contributes its fragments, any
        other argument itself. */
    constructor (args: seq<Expr>)
      ensures fragments == Flatten(args) && !writable
    {
      writable := false;
      var acc: seq<Expr> := [];
      for i := 0 to |args|
        invariant acc == Flatten(args[..i])
      {
        assert args[..i + 1][..i] == args[..i];
        acc := acc + WrapAsPath(args[i]);
      }
      assert args[..|args|] == args;
      fragments := acc;
    }

    /** PathExpression.Writable(List fragments), whose arguments are all writable. */
    constructor Writable(args: seq<Expr>)
      requires forall i :: 0 <= i < |args| ==> WritableEvaluable(args[i])
      ensures fragments == Flatten(args) && writable
    {
      writable := true;
      var acc: seq<Expr> := [];
      for i := 0 to |args|
        invariant acc == Flatten(args[..i])
      {
        assert args[..i + 1][..i] == args[..i];
        acc := acc + WrapAsPath(args[i]);
      }
      assert args[..|args|] == args;
      fragments := acc;
    }

    /** This path as an argument or fragment of another expression: passed to a path
        constructor it contributes its fragments, and it is writable exactly when it is a
        PathExpression.Writable. */
    function AsExpr(): (e: Expr)
      reads this
      ensures WrapAsPath(e) == fragments
      ensures WritableEvaluable(e) <==> writable
    {
      if writable then WritablePathExpr(fragments) else PathExpr(fragments)
    }

    /** add(fragment): appends exactly one fragment, without flattening. A writable path
        refuses a fragment that is not writable and then keeps its fragments. */
    method Add(fragment: Expr) returns (outcome: Outcome)
      modifies this
      ensures writable && !WritableEvaluable(fragment) ==> outcome == Fail(IllegalArgument) && fragments == old(fragments)
      ensures !(writable && !WritableEvaluable(fragment)) ==> outcome == Pass && fragments == old(fragments) + [fragment]
    {
      if writable && !WritableEvaluable(fragment) {
        return Fail(IllegalArgument);
      }
      fragments := fragments + [fragment];
      return Pass;
    }

    /** getDepth(): the number of fragments. */
    function Depth(): (depth: nat)
      reads this
      ensures depth == |fragments|
    {
      |fragments|
    }

    /** isPrefix(prefix): this path starts with the fragments of `prefix`. */
    function IsPrefix(prefix: PathExpression): (r: bool)
      reads this, prefix
      ensures r <==> exists suffix :: fragments == prefix.fragments + suffix
    {
      if |fragments| < prefix.Depth() then false
      else
        assert fragments == fragments[..prefix.Depth()] + fragments[prefix.Depth()..];
        fragments[..prefix.Depth()] == prefix.fragments
    }

    /** equals(obj): another path of the same class with the same fragment list. */
    function Equals(other: PathExpression?): (r: bool)
      reads this, other
      ensures r <==> other != null && other.writable == writable && other.fragments == fragments
    {
      if this == other then true
      else if other == null then false
      else if writable != other.writable then false
      else fragments == other.fragments
    }

    /** evaluate(node, context): the left fold of fragment evaluation over `node`. */
    method Evaluate(node: Json, ext: Externals) returns (result: Json)
      ensures result == Eval(AsExpr(), node, ext)
      ensures fragments == [] ==> result == node
    {
      result := node;
      for i := 0 to |fragments|
        invariant result == EvalPath(fragments[..i], node, ext)
      {
        EvalPathAppend(fragments[..i], [fragments[i]], node, ext);
        assert fragments[..i + 1] == fragments[..i] + [fragments[i]];
        result := Eval(fragments[i], result, ext);
      }
      assert fragments[..|fragments|] == fragments;
    }


    /** replace(toReplace, replaceFragment) on the fragment list: every occurrence of the
        sought fragments is replaced, scanning from the left; an empty sought path
        replaces nothing (see the findings about the loop as written). */
    method Replace(toReplace: Expr, replaceFragment: Expr)
      modifies this
      ensures fragments == ReplaceAll(old(fragments), WrapAsPath(toReplace), WrapAsPath(replaceFragment))
    {
      var pathToFind := WrapAsPath(toReplace);
      var replacePath := WrapAsPath(replaceFragment);
      if |pathToFind| == 0 {
        return;
      }
      fragments := ReplaceFragments(fragments, pathToFind, replacePath);
    }
  }
}
