/** Deterministic workflow code and its evaluation against a memo of step results. */
module Programs {
  import opened Basics
  import opened RetryPolicies
  import opened StepLog

  /** What workflow code does next. */
  datatype Action =
    | Step(name: string, policy: Option<RetryPolicy>)
    | Sleep(name: string, seconds: nat)
    | Return(output: Bytes)
    | Raise(error: string)
  {
    predicate Calls() {
      Step? || Sleep?
    }
  }

  /** Deterministic code: the results obtained so far decide the next action. A sleep obtains []. */
  type Program = seq<Bytes> -> Action

  /** The attempt logs of one run, by step name. */
  type Memo = map<string, Log>

  function Get(m: Memo, name: string): Log {
    if name in m then m[name] else []
  }

  /** The bytes a cached reply carries. */
  function Cached(log: Log): Bytes
    requires Done(log)
  {
    Last(log).output.GetOr([])
  }

  const DECODE_ERROR := "EOF while parsing a value"

  /** `r` is the memoised result of the action. JSON text is never empty. */
  predicate Follows(m: Memo, a: Action, r: Bytes) {
    match a
    case Step(name, _) => Done(Get(m, name)) && r != [] && Cached(Get(m, name)) == r
    case Sleep(name, _) => Done(Get(m, name)) && r == []
    case _ => false
  }

  /** The history is what the code obtains when each step name returns its memoised output. */
  ghost predicate Consistent(p: Program, m: Memo, rs: seq<Bytes>) {
    forall i :: 0 <= i < |rs| ==> Follows(m, p(rs[..i]), rs[i])
  }

  datatype Conclusion = Returned(output: Bytes) | RaisedWith(error: string)

  /** The code ends here: it returns, raises, or raises the error of a step that failed. */
  predicate Ends(m: Memo, a: Action, r: Conclusion) {
    match a
    case Return(output) => r == Returned(output)
    case Raise(error) => r == RaisedWith(error)
    case Step(name, _) =>
      var log := Get(m, name);
      if Done(log) then Cached(log) == [] && r == RaisedWith(DECODE_ERROR)
      else log != [] && Last(log).status.Failed? && r == RaisedWith(Last(log).error.GetOr(""))
    case Sleep(_, _) => false
  }

  ghost predicate EvaluatesVia(p: Program, m: Memo, rs: seq<Bytes>, r: Conclusion) {
    Consistent(p, m, rs) && Ends(m, p(rs), r)
  }

  /** One uninterrupted evaluation of the program against the memo ends in `r`. */
  ghost predicate EvaluatesTo(p: Program, m: Memo, r: Conclusion) {
    exists rs :: EvaluatesVia(p, m, rs, r)
  }

  lemma ConsistentPrefix(p: Program, m: Memo, rs: seq<Bytes>, n: nat)
    requires Consistent(p, m, rs) && n <= |rs|
    ensures Consistent(p, m, rs[..n])
  {
    forall i | 0 <= i < n ensures Follows(m, p(rs[..n][..i]), rs[..n][i]) {
      assert rs[..n][..i] == rs[..i];
    }
  }

  lemma ConsistentSnoc(p: Program, m: Memo, rs: seq<Bytes>, r: Bytes)
    requires Consistent(p, m, rs) && Follows(m, p(rs), r)
    ensures Consistent(p, m, rs + [r])
  {
    forall i | 0 <= i < |rs| + 1 ensures Follows(m, p((rs + [r])[..i]), (rs + [r])[i]) {
      if i < |rs| {
        assert (rs + [r])[..i] == rs[..i];
      } else {
        assert (rs + [r])[..i] == rs;
      }
    }
  }

  /** Two consistent histories of the same length are the same history. */
  lemma {:induction false} HistoryIsDetermined(p: Program, m: Memo, a: seq<Bytes>, b: seq<Bytes>)
    requires Consistent(p, m, a) && Consistent(p, m, b) && |a| == |b|
    ensures a == b
    decreases |a|
  {
    if a != [] {
      var n := |a| - 1;
      ConsistentPrefix(p, m, a, n);
      ConsistentPrefix(p, m, b, n);
      HistoryIsDetermined(p, m, a[..n], b[..n]);
      assert Follows(m, p(a[..n]), a[n]) && Follows(m, p(b[..n]), b[n]);
      assert a == a[..n] + [a[n]] && b == b[..n] + [b[n]];
    }
  }

  /** The evaluation has at most one result, and every consistent history lies on it. */
  lemma EvaluationIsUnique(p: Program, m: Memo, r1: Conclusion, r2: Conclusion)
    requires EvaluatesTo(p, m, r1) && EvaluatesTo(p, m, r2)
    ensures r1 == r2
  {
    var a :| EvaluatesVia(p, m, a, r1);
    var b :| EvaluatesVia(p, m, b, r2);
    OnTheEvaluation(p, m, a, b, r2);
    OnTheEvaluation(p, m, b, a, r1);
    HistoryIsDetermined(p, m, a, b);
  }

  /** A consistent history is a prefix of the one that ends. */
  lemma OnTheEvaluation(p: Program, m: Memo, a: seq<Bytes>, whole: seq<Bytes>, r: Conclusion)
    requires Consistent(p, m, a) && EvaluatesVia(p, m, whole, r)
    ensures |a| <= |whole| && a == whole[..|a|]
  {
    if |whole| < |a| {
      var n := |whole|;
      ConsistentPrefix(p, m, a, n);
      HistoryIsDetermined(p, m, a[..n], whole);
      assert false;
    }
    ConsistentPrefix(p, m, whole, |a|);
    HistoryIsDetermined(p, m, a, whole[..|a|]);
  }

  /** While a step that the history reaches is open there is no result: a panic in its closure leaves the
      run with an error that no evaluation gives. */
  lemma OpenStepHasNoResult(p: Program, m: Memo, rs: seq<Bytes>, r: Conclusion)
    requires Consistent(p, m, rs) && p(rs).Calls() && InProgress(Get(m, p(rs).name))
    ensures !EvaluatesTo(p, m, r)
  {
    forall whole ensures !EvaluatesVia(p, m, whole, r) {
      if Consistent(p, m, whole) && |whole| > |rs| {
        ConsistentPrefix(p, m, whole, |rs|);
        HistoryIsDetermined(p, m, whole[..|rs|], rs);
        assert false;
      } else if Consistent(p, m, whole) && |whole| <= |rs| {
        ConsistentPrefix(p, m, rs, |whole|);
        HistoryIsDetermined(p, m, rs[..|whole|], whole);
        assert whole == rs || Follows(m, p(rs[..|whole|]), rs[|whole|]);
      }
    }
  }

  // ----- Reserved names -----

  /** The program never uses a reserved step name. */
  ghost predicate PlainNames(p: Program) {
    forall rs :: p(rs).Calls() ==> !Reserved(p(rs).name)
  }

  /** Completed entries stand; reserved names do not matter. */
  ghost predicate MemoKept(m: Memo, m': Memo) {
    forall name :: !Reserved(name) && Done(Get(m, name)) ==> Get(m', name) == Get(m, name)
  }

  ghost predicate MemoSame(m: Memo, m': Memo) {
    forall name :: !Reserved(name) ==> Get(m', name) == Get(m, name)
  }

  lemma ConsistentKept(p: Program, m: Memo, m': Memo, rs: seq<Bytes>)
    requires PlainNames(p) && MemoKept(m, m') && Consistent(p, m, rs)
    ensures Consistent(p, m', rs)
  {
    forall i | 0 <= i < |rs| ensures Follows(m', p(rs[..i]), rs[i]) {
      assert Follows(m, p(rs[..i]), rs[i]);
    }
  }

  lemma ReturnKept(p: Program, m: Memo, m': Memo, output: Bytes)
    requires PlainNames(p) && MemoKept(m, m') && EvaluatesTo(p, m, Returned(output))
    ensures EvaluatesTo(p, m', Returned(output))
  {
    var rs :| EvaluatesVia(p, m, rs, Returned(output));
    ConsistentKept(p, m, m', rs);
    assert EvaluatesVia(p, m', rs, Returned(output));
  }

  lemma EvaluationSame(p: Program, m: Memo, m': Memo, r: Conclusion)
    requires PlainNames(p) && MemoSame(m, m') && EvaluatesTo(p, m, r)
    ensures EvaluatesTo(p, m', r)
  {
    var rs :| EvaluatesVia(p, m, rs, r);
    ConsistentKept(p, m, m', rs);
    assert EvaluatesVia(p, m', rs, r);
  }
}
