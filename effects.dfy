/** The observable side of the root node factory: the progress records it
    writes through its context, the remote calls it makes, and runs of a
    sequence of such calls that stop at the first call that throws. */
module Effects {

  datatype Option<+T> = None | Some(value: T)

  /** Whether a progress record reports work under way or the end of it. */
  datatype RecordType = Processing | Completed

  /** The fields of a PowerShell progress record. `currentOperation` is
      `None` while it still holds the record's initial null value. */
  datatype ProgressRecord = ProgressRecord(
    activityId: int,
    activity: string,
    statusDescription: string,
    currentOperation: Option<string>,
    percentComplete: int,
    recordType: RecordType)

  /** The two folder-organised package stores: the legacy DTS service and
      the msdb database of a SQL server. */
  datatype Source = Dts | Sql

  /** A call into code outside this core. */
  datatype Call =
    | ListEntries(source: Source, path: string)
    | LoadPackage(source: Source, key: string)
    | ListCatalogFolders
    | GetProjectsForFolder(folder: string)
    | GetLocalPackagePaths(projectPath: string)
    | GetCachedPackage(packagePath: string)

  /** One interaction with the outside world: a snapshot of the progress
      record handed to `WriteProgress`, or a remote call. */
  datatype Effect = WriteProgress(record: ProgressRecord) | Remote(call: Call)

  /** What a sequence of calls produced (`None` when one of them threw) and
      every interaction it performed, the throwing call included. */
  datatype Run<T> = Run(result: Option<seq<T>>, trace: seq<Effect>)

  /** Run `b` after `a`: results are appended, and nothing after a throw
      happens. */
  function AndThen<T>(a: Run<T>, b: Run<T>): Run<T>
  {
    if a.result.None? then a
    else if b.result.None? then Run(None, a.trace + b.trace)
    else Run(Some(a.result.value + b.result.value), a.trace + b.trace)
  }

  /** The trace of a run that opens with `head`, followed by `b`. */
  lemma AndThenTrace<T>(r: Option<seq<T>>, head: seq<Effect>, a: seq<Effect>, b: Run<T>)
    ensures AndThen(Run(r, head + a), b).trace == head + (if r.Some? then a + b.trace else a)
  {
    if r.Some? {
      assert head + a + b.trace == head + (a + b.trace);
    }
  }

  /** The values a run produced, or nothing if it threw. */
  function ValuesOf<T>(r: Run<T>): seq<T>
  {
    match r.result
    case None => []
    case Some(v) => v
  }

  /** Perform `step` on each element of `xs` in order, stopping at the
      first step that throws. Defined on prefixes so that a loop over `xs`
      can keep `Fold(xs[..i], step)` as its invariant. */
  function Fold<X, T>(xs: seq<X>, step: X -> Run<T>): Run<T>
    decreases |xs|
  {
    if xs == [] then Run(Some([]), [])
    else AndThen(Fold(xs[..|xs| - 1], step), step(xs[|xs| - 1]))
  }

  /** The values of all steps, concatenated in order. */
  function Flat<X, T>(xs: seq<X>, step: X -> Run<T>): seq<T>
    decreases |xs|
  {
    if xs == [] then []
    else Flat(xs[..|xs| - 1], step) + ValuesOf(step(xs[|xs| - 1]))
  }

  lemma FoldSnoc<X, T>(xs: seq<X>, step: X -> Run<T>, i: nat)
    requires i < |xs|
    ensures Fold(xs[..i + 1], step) == AndThen(Fold(xs[..i], step), step(xs[i]))
  {
    assert xs[..i + 1][..i] == xs[..i];
  }

  /** One more step that succeeds extends the values and the interactions. */
  lemma FoldGrows<X, T>(xs: seq<X>, step: X -> Run<T>, i: nat)
    requires i < |xs|
    requires Fold(xs[..i], step).result.Some? && step(xs[i]).result.Some?
    ensures Fold(xs[..i + 1], step)
      == Run(Some(Fold(xs[..i], step).result.value + step(xs[i]).result.value),
             Fold(xs[..i], step).trace + step(xs[i]).trace)
  {
    FoldSnoc(xs, step, i);
  }

  /** Once a prefix of the steps has thrown, the remaining steps change
      nothing. */
  lemma {:induction false} FoldStops<X, T>(xs: seq<X>, step: X -> Run<T>, i: nat)
    requires i <= |xs|
    requires Fold(xs[..i], step).result.None?
    ensures Fold(xs, step) == Fold(xs[..i], step)
    decreases |xs|
  {
    if i == |xs| {
      assert xs[..i] == xs;
    } else {
      var init := xs[..|xs| - 1];
      assert init[..i] == xs[..i];
      FoldStops(init, step, i);
    }
  }

  /** The first step that throws ends the whole fold, after its own
      interactions. */
  lemma FoldStopsAt<X, T>(xs: seq<X>, step: X -> Run<T>, i: nat)
    requires i < |xs|
    requires Fold(xs[..i], step).result.Some? && step(xs[i]).result.None?
    ensures Fold(xs, step) == Run(None, Fold(xs[..i], step).trace + step(xs[i]).trace)
  {
    FoldSnoc(xs, step, i);
    FoldStops(xs, step, i + 1);
  }

  /** A fold succeeds exactly when every step does, and then yields the
      values of all steps in order. */
  lemma {:induction false} FoldSucceeds<X, T>(xs: seq<X>, step: X -> Run<T>)
    ensures Fold(xs, step).result.Some? <==> forall x :: x in xs ==> step(x).result.Some?
    ensures Fold(xs, step).result.Some? ==> Fold(xs, step).result.value == Flat(xs, step)
    decreases |xs|
  {
    if xs != [] {
      var init := xs[..|xs| - 1];
      FoldSucceeds(init, step);
      assert xs == init + [xs[|xs| - 1]];
    }
  }

  /** Every value of a fold comes from one of its steps. */
  lemma {:induction false} FlatMember<X, T>(xs: seq<X>, step: X -> Run<T>, v: T)
    requires v in Flat(xs, step)
    ensures exists x :: x in xs && v in ValuesOf(step(x))
    decreases |xs|
  {
    var init := xs[..|xs| - 1];
    if v in Flat(init, step) {
      FlatMember(init, step, v);
      var x :| x in init && v in ValuesOf(step(x));
      assert x in xs;
    } else {
      assert v in ValuesOf(step(xs[|xs| - 1]));
    }
  }

  /** When every step yields exactly one value, the fold's values are those
      values, one per element and in the elements' order. */
  lemma {:induction false} FlatSingletons<X, T>(xs: seq<X>, step: X -> Run<T>)
    requires forall x :: x in xs ==> |ValuesOf(step(x))| == 1
    ensures |Flat(xs, step)| == |xs|
    ensures forall i :: 0 <= i < |xs| ==> Flat(xs, step)[i] == ValuesOf(step(xs[i]))[0]
    decreases |xs|
  {
    if xs != [] {
      var init := xs[..|xs| - 1];
      assert forall x :: x in init ==> x in xs;
      FlatSingletons(init, step);
      var f := Flat(xs, step);
      assert f == Flat(init, step) + ValuesOf(step(xs[|xs| - 1]));
      forall i | 0 <= i < |xs|
        ensures f[i] == ValuesOf(step(xs[i]))[0]
      {
        if i < |init| {
          assert xs[i] == init[i];
        }
      }
    }
  }

  /** Every value of a fold of some steps, when some step is in it. */
  lemma {:induction false} FlatContains<X, T>(xs: seq<X>, step: X -> Run<T>, i: nat, v: T)
    requires i < |xs| && v in ValuesOf(step(xs[i]))
    ensures v in Flat(xs, step)
    decreases |xs|
  {
    if i < |xs| - 1 {
      FlatContains(xs[..|xs| - 1], step, i, v);
    }
  }

  /** `p` holds of every interaction in `t`. */
  ghost predicate AllEffects(t: seq<Effect>, p: Effect -> bool)
  {
    forall e :: e in t ==> p(e)
  }

  /** The interactions of a fold are those of its steps. */
  lemma {:induction false} FoldAll<X, T>(xs: seq<X>, step: X -> Run<T>, p: Effect -> bool)
    requires forall x :: x in xs ==> AllEffects(step(x).trace, p)
    ensures AllEffects(Fold(xs, step).trace, p)
    decreases |xs|
  {
    if xs != [] {
      var init := xs[..|xs| - 1];
      assert forall x :: x in init ==> x in xs;
      FoldAll(init, step, p);
    }
  }

  /** Every interaction of a fold is an interaction of one of its steps. */
  lemma {:induction false} FoldTraceStep<X, T>(xs: seq<X>, step: X -> Run<T>, e: Effect)
    requires e in Fold(xs, step).trace
    ensures exists x :: x in xs && e in step(x).trace
    decreases |xs|
  {
    var init := xs[..|xs| - 1];
    if e in Fold(init, step).trace {
      FoldTraceStep(init, step, e);
      var x :| x in init && e in step(x).trace;
      assert x in xs;
    } else {
      assert e in step(xs[|xs| - 1]).trace;
    }
  }

  /** The progress records a trace writes, in order. */
  function Writes(t: seq<Effect>): seq<ProgressRecord>
    decreases |t|
  {
    if t == [] then []
    else (if t[0].WriteProgress? then [t[0].record] else []) + Writes(t[1..])
  }

  lemma {:induction false} WritesAppend(a: seq<Effect>, b: seq<Effect>)
    ensures Writes(a + b) == Writes(a) + Writes(b)
    decreases |a|
  {
    if a != [] {
      assert (a + b)[0] == a[0] && (a + b)[1..] == a[1..] + b;
      WritesAppend(a[1..], b);
      assert Writes(a + b) == (if a[0].WriteProgress? then [a[0].record] else []) + Writes(a[1..] + b);
    } else {
      assert a + b == b;
    }
  }

  lemma {:induction false} WritesMember(t: seq<Effect>, r: ProgressRecord)
    requires r in Writes(t)
    ensures WriteProgress(r) in t
    decreases |t|
  {
    if !(t[0].WriteProgress? && t[0].record == r) {
      WritesMember(t[1..], r);
    }
  }

  /** The progress record as the last write of `t` left it; `rec` when `t`
      writes nothing. */
  function After(rec: ProgressRecord, t: seq<Effect>): ProgressRecord
  {
    var ws := Writes(t);
    if ws == [] then rec else ws[|ws| - 1]
  }

  /** `e` writes nothing, or writes `rec` with only its current operation
      changed. */
  function KeptFrom(rec: ProgressRecord): Effect -> bool
  {
    (e: Effect) => e.WriteProgress? ==> e.record == rec.(currentOperation := e.record.currentOperation)
  }

  /** Every record a trace writes agrees with `rec` except for its current
      operation. */
  lemma {:induction false} KeptWrites(rec: ProgressRecord, t: seq<Effect>)
    requires AllEffects(t, KeptFrom(rec))
    ensures forall r :: r in Writes(t) ==> r == rec.(currentOperation := r.currentOperation)
  {
    forall r | r in Writes(t)
      ensures r == rec.(currentOperation := r.currentOperation)
    {
      WritesMember(t, r);
      assert KeptFrom(rec)(WriteProgress(r));
    }
  }

  /** A trace that writes nothing leaves the progress record as it was. */
  lemma AfterAppend(rec: ProgressRecord, t: seq<Effect>, u: seq<Effect>)
    ensures After(rec, t + u) == if Writes(u) == [] then After(rec, t) else Writes(u)[|Writes(u)| - 1]
  {
    WritesAppend(t, u);
  }

  /** The record after two traces is the record the second leaves when it
      starts from the record the first left. */
  lemma AfterSeq(rec: ProgressRecord, t: seq<Effect>, u: seq<Effect>)
    ensures After(rec, t + u) == After(After(rec, t), u)
  {
    WritesAppend(t, u);
  }

  /** `e` is a remote call. */
  function NotWrite(): Effect -> bool
  {
    (e: Effect) => e.Remote?
  }

  lemma {:induction false} NoWrites(t: seq<Effect>)
    requires AllEffects(t, NotWrite())
    ensures Writes(t) == []
    decreases |t|
  {
    if t != [] {
      assert NotWrite()(t[0]);
      assert forall e :: e in t[1..] ==> e in t;
      NoWrites(t[1..]);
    }
  }

  /** The sequences of `xss`, one after the other. */
  function Concat<T>(xss: seq<seq<T>>): seq<T>
    decreases |xss|
  {
    if xss == [] then [] else Concat(xss[..|xss| - 1]) + xss[|xss| - 1]
  }

  /** Concatenating a sequence that starts with `x` starts with `x`. */
  lemma {:induction false} ConcatCons<T>(x: seq<T>, xss: seq<seq<T>>)
    ensures Concat([x] + xss) == x + Concat(xss)
    decreases |xss|
  {
    if xss == [] {
      assert ([x] + xss)[..0] == [];
    } else {
      var init := xss[..|xss| - 1];
      assert ([x] + xss)[..|xss|] == [x] + init;
      assert ([x] + xss)[|xss|] == xss[|xss| - 1];
      ConcatCons(x, init);
    }
  }

  /** A write followed by a call writes exactly that record. */
  lemma WritesPair(r: ProgressRecord, c: Call)
    ensures Writes([WriteProgress(r), Remote(c)]) == [r]
  {
    var t := [WriteProgress(r), Remote(c)];
    assert Writes(t) == [r] + Writes(t[1..]);
    assert Writes(t[1..]) == [] + Writes(t[2..]);
  }

  /** `r` ends at the first interaction that satisfies `p`: when it threw,
      its last interaction is the only one satisfying `p`, and when it
      succeeded, none does. */
  ghost predicate EndsAtFirst<T>(r: Run<T>, p: Effect -> bool)
  {
    if r.result.None? then
      r.trace != [] && p(r.trace[|r.trace| - 1]) && forall i :: 0 <= i < |r.trace| - 1 ==> !p(r.trace[i])
    else
      forall i :: 0 <= i < |r.trace| ==> !p(r.trace[i])
  }

  /** Interactions that satisfy no `p` do not change where a run ends. */
  lemma EndsAtFirstAfter<T>(h: seq<Effect>, r: Run<T>, p: Effect -> bool)
    requires forall i :: 0 <= i < |h| ==> !p(h[i])
    requires EndsAtFirst(r, p)
    ensures EndsAtFirst(Run(r.result, h + r.trace), p)
  {
    var t := h + r.trace;
    forall i | 0 <= i < |t| && (r.result.Some? || i < |t| - 1)
      ensures !p(t[i])
    {
      if i >= |h| {
        assert t[i] == r.trace[i - |h|];
      }
    }
    if r.result.None? {
      assert t[|t| - 1] == r.trace[|r.trace| - 1];
    }
  }

  lemma AndThenEndsAtFirst<T>(a: Run<T>, b: Run<T>, p: Effect -> bool)
    requires EndsAtFirst(a, p) && EndsAtFirst(b, p)
    ensures EndsAtFirst(AndThen(a, b), p)
  {
    if a.result.Some? {
      EndsAtFirstAfter(a.trace, b, p);
    }
  }

  /** A fold of steps that each end at their first interaction satisfying
      `p` ends at its first interaction satisfying `p`. */
  lemma {:induction false} FoldEndsAtFirst<X, T>(xs: seq<X>, step: X -> Run<T>, p: Effect -> bool)
    requires forall x :: x in xs ==> EndsAtFirst(step(x), p)
    ensures EndsAtFirst(Fold(xs, step), p)
    decreases |xs|
  {
    if xs != [] {
      var init := xs[..|xs| - 1];
      assert forall x :: x in init ==> x in xs;
      FoldEndsAtFirst(init, step, p);
      AndThenEndsAtFirst(Fold(init, step), step(xs[|xs| - 1]), p);
    }
  }

  /** Steps that agree on their results give folds with the same result,
      whatever interactions each performs. */
  lemma {:induction false} FoldResultsAgree<X, T>(xs: seq<X>, f: X -> Run<T>, g: X -> Run<T>)
    requires forall x :: x in xs ==> f(x).result == g(x).result
    ensures Fold(xs, f).result == Fold(xs, g).result
    decreases |xs|
  {
    if xs != [] {
      var init := xs[..|xs| - 1];
      assert forall x :: x in init ==> x in xs;
      assert xs[|xs| - 1] in xs;
      FoldResultsAgree(init, f, g);
    }
  }

  /** Where a run ends is decided only by how `p` judges its own
      interactions. */
  lemma EndsAtFirstAgree<T>(r: Run<T>, p: Effect -> bool, q: Effect -> bool)
    requires EndsAtFirst(r, p)
    requires forall i :: 0 <= i < |r.trace| ==> p(r.trace[i]) == q(r.trace[i])
    ensures EndsAtFirst(r, q)
  {
  }

  /** A value of a sequenced run comes from one of its two runs, both of
      which succeeded. */
  lemma AndThenValues<T>(a: Run<T>, b: Run<T>, v: T)
    requires v in ValuesOf(AndThen(a, b))
    ensures a.result.Some? && b.result.Some?
    ensures v in a.result.value || v in b.result.value
  {
  }

  /** When both runs succeed, their sequence holds the interactions and the
      values of each. */
  lemma AndThenHolds<T>(a: Run<T>, b: Run<T>)
    requires a.result.Some? && b.result.Some?
    ensures AndThen(a, b).result.Some?
    ensures forall x :: x in a.trace ==> x in AndThen(a, b).trace
    ensures forall x :: x in b.trace ==> x in AndThen(a, b).trace
    ensures forall v :: v in a.result.value ==> v in AndThen(a, b).result.value
    ensures forall v :: v in b.result.value ==> v in AndThen(a, b).result.value
  {
  }
}
