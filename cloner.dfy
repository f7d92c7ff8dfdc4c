/**
 * The clone loop (`getClone` in utils/actions.js): every entry of the
 * dependency object, in insertion order, is copied from the presentation
 * to the same relative path under the destination. A source that does not
 * exist, or a copy that fails, is recorded as a failure and the loop goes
 * on with the next entry.
 *
 * The filesystem at copy time is given as the set of relative paths that
 * exist under the presentation and the set of paths whose copy fails.
 */
module Cloner {
  import opened Wrappers
  import opened FileTree
  import opened OrderedMaps
  import opened Resolver

  /** One call of `fse.copy(from, to)`. */
  datatype CopyOp = CopyOp(from: Path, to: Path)

  /**
   * `NoDependencies` is the "dependencies not found" outcome for an
   * `undefined` dependency object; otherwise the keys copied (`log`), their
   * number (`countOk`), the paths skipped (`fails`) and the copies issued.
   */
  datatype CloneReport =
    | NoDependencies
    | Report(log: seq<DepKey>, countOk: nat, fails: seq<Path>, copies: seq<CopyOp>)

  predicate Copied(b: Binding<DepKey, Path>, present: set<Path>, copyErrors: set<Path>)
  {
    b.value in present && b.value !in copyErrors
  }

  /** Keys of the entries that were copied, in iteration order. */
  function Succeeded(deps: DepMap, present: set<Path>, copyErrors: set<Path>): (r: seq<DepKey>)
    ensures |r| <= |deps|
  {
    if |deps| == 0 then []
    else
      var last := deps[|deps| - 1];
      Succeeded(deps[..|deps| - 1], present, copyErrors) + if Copied(last, present, copyErrors) then [last.key] else []
  }

  /** Paths of the entries that were missing or failed to copy, in iteration order. */
  function Failed(deps: DepMap, present: set<Path>, copyErrors: set<Path>): (r: seq<Path>)
    ensures |r| <= |deps|
  {
    if |deps| == 0 then []
    else
      var last := deps[|deps| - 1];
      Failed(deps[..|deps| - 1], present, copyErrors) + if Copied(last, present, copyErrors) then [] else [last.value]
  }

  /** The copies issued: one per entry whose source exists, from the presentation to the destination. */
  function Copies(deps: DepMap, present: set<Path>, pathToPresentation: Path, destinationPath: Path): (r: seq<CopyOp>)
    ensures |r| <= |deps|
  {
    if |deps| == 0 then []
    else
      var last := deps[|deps| - 1];
      Copies(deps[..|deps| - 1], present, pathToPresentation, destinationPath) +
        if last.value in present then [CopyOp(pathToPresentation + last.value, destinationPath + last.value)] else []
  }

  method GetClone(dependencies: Option<DepMap>, pathToPresentation: Path, destinationPath: Path,
                  present: set<Path>, copyErrors: set<Path>)
    returns (r: CloneReport)
    ensures dependencies.None? <==> r.NoDependencies?
    ensures dependencies.Some? ==>
              var deps := dependencies.value;
              && r.log == Succeeded(deps, present, copyErrors)
              && r.countOk == |r.log|
              && r.fails == Failed(deps, present, copyErrors)
              && r.copies == Copies(deps, present, pathToPresentation, destinationPath)
  {
    if dependencies.None? {
      return NoDependencies;
    }
    var deps := dependencies.value;
    var countOk, fails, log, copies := 0, [], [], [];
    for i := 0 to |deps|
      invariant log == Succeeded(deps[..i], present, copyErrors) && countOk == |log|
      invariant fails == Failed(deps[..i], present, copyErrors)
      invariant copies == Copies(deps[..i], present, pathToPresentation, destinationPath)
    {
      assert deps[..i + 1][..i] == deps[..i];
      var from := pathToPresentation + deps[i].value;
      var to := destinationPath + deps[i].value;
      if deps[i].value !in present {
        fails := fails + [deps[i].value];
        continue;
      }
      copies := copies + [CopyOp(from, to)];
      if deps[i].value !in copyErrors {
        log := log + [deps[i].key];
        countOk := countOk + 1;
      } else {
        fails := fails + [deps[i].value];
      }
    }
    assert deps[..|deps|] == deps;
    r := Report(log, countOk, fails, copies);
  }

  /** Every entry is visited and lands in exactly one of `log` and `fails`. */
  lemma {:induction false} CloneAccountsForEveryEntry(deps: DepMap, present: set<Path>, copyErrors: set<Path>)
    ensures |Succeeded(deps, present, copyErrors)| + |Failed(deps, present, copyErrors)| == |deps|
  {
    if |deps| > 0 {
      CloneAccountsForEveryEntry(deps[..|deps| - 1], present, copyErrors);
    }
  }

  /** An entry is logged exactly when its source exists and copies, and skipped otherwise. */
  lemma {:induction false} CloneSortsEntries(deps: DepMap, present: set<Path>, copyErrors: set<Path>, b: Binding<DepKey, Path>)
    requires b in deps
    ensures Copied(b, present, copyErrors) ==> b.key in Succeeded(deps, present, copyErrors)
    ensures !Copied(b, present, copyErrors) ==> b.value in Failed(deps, present, copyErrors)
  {
    var n := |deps| - 1;
    if b != deps[n] {
      assert b in deps[..n] by {
        var i :| 0 <= i < |deps| && deps[i] == b;
        assert deps[..n][i] == b;
      }
      CloneSortsEntries(deps[..n], present, copyErrors, b);
    }
  }

  /** Nothing is logged or skipped that does not come from an entry of the right kind. */
  lemma {:induction false} CloneRecordsOnlyEntries(deps: DepMap, present: set<Path>, copyErrors: set<Path>)
    ensures forall k :: k in Succeeded(deps, present, copyErrors) ==>
              exists i :: 0 <= i < |deps| && deps[i].key == k && Copied(deps[i], present, copyErrors)
    ensures forall p :: p in Failed(deps, present, copyErrors) ==>
              exists i :: 0 <= i < |deps| && deps[i].value == p && !Copied(deps[i], present, copyErrors)
  {
    if |deps| > 0 {
      var n := |deps| - 1;
      CloneRecordsOnlyEntries(deps[..n], present, copyErrors);
      forall k | k in Succeeded(deps[..n], present, copyErrors)
        ensures exists i :: 0 <= i < |deps| && deps[i].key == k && Copied(deps[i], present, copyErrors)
      {
        var i :| 0 <= i < n && deps[..n][i].key == k && Copied(deps[..n][i], present, copyErrors);
        assert deps[i] == deps[..n][i];
      }
      forall p | p in Failed(deps[..n], present, copyErrors)
        ensures exists i :: 0 <= i < |deps| && deps[i].value == p && !Copied(deps[i], present, copyErrors)
      {
        var i :| 0 <= i < n && deps[..n][i].value == p && !Copied(deps[..n][i], present, copyErrors);
        assert deps[i] == deps[..n][i];
      }
    }
  }

  /** When every source exists and copies, every key is logged in order and nothing is skipped. */
  lemma {:induction false} CloneAllSucceed(deps: DepMap, present: set<Path>, copyErrors: set<Path>)
    requires forall i :: 0 <= i < |deps| ==> Copied(deps[i], present, copyErrors)
    ensures Succeeded(deps, present, copyErrors) == Keys(deps)
    ensures Failed(deps, present, copyErrors) == []
  {
    if |deps| > 0 {
      var n := |deps| - 1;
      CloneAllSucceed(deps[..n], present, copyErrors);
      assert Keys(deps) == Keys(deps[..n]) + [deps[n].key];
    }
  }

  /**
   * Each copy goes from `<presentation>/<p>` to `<destination>/<p>` for the
   * same relative path `p`, which exists; a missing source is never copied.
   */
  lemma {:induction false} CopiesShareRelativePath(deps: DepMap, present: set<Path>, pathToPresentation: Path, destinationPath: Path)
    ensures forall c :: c in Copies(deps, present, pathToPresentation, destinationPath) ==>
              && |c.from| >= |pathToPresentation| && |c.to| >= |destinationPath|
              && c.from[..|pathToPresentation|] == pathToPresentation
              && c.to[..|destinationPath|] == destinationPath
              && c.from[|pathToPresentation|..] == c.to[|destinationPath|..]
              && c.from[|pathToPresentation|..] in present
  {
    if |deps| > 0 {
      var n := |deps| - 1;
      CopiesShareRelativePath(deps[..n], present, pathToPresentation, destinationPath);
      var last := deps[n];
      var c := CopyOp(pathToPresentation + last.value, destinationPath + last.value);
      assert c.from[..|pathToPresentation|] == pathToPresentation && c.from[|pathToPresentation|..] == last.value;
      assert c.to[..|destinationPath|] == destinationPath && c.to[|destinationPath|..] == last.value;
    }
  }

  /** One copy per entry whose source exists: the missing ones are exactly the ones skipped. */
  lemma {:induction false} CopiesCount(deps: DepMap, present: set<Path>, pathToPresentation: Path, destinationPath: Path)
    ensures |Copies(deps, present, pathToPresentation, destinationPath)| ==
              |deps| - |set i | 0 <= i < |deps| && deps[i].value !in present|
  {
    if |deps| > 0 {
      var n := |deps| - 1;
      CopiesCount(deps[..n], present, pathToPresentation, destinationPath);
      var missing := set i | 0 <= i < |deps| && deps[i].value !in present;
      var missing' := set i | 0 <= i < n && deps[..n][i].value !in present;
      assert missing == missing' + (if deps[n].value in present then {} else {n});
    }
  }


  /** The value the script's `fails` variable holds: the array, or a number once `fails++` has run. */
  datatype FailsValue = FailArray(paths: seq<Path>) | FailNumber

  /** The loop state of the script as written; `threw` means a TypeError ended the loop at entry `visited`. */
  datatype AsWrittenState = AsWrittenState(log: seq<DepKey>, fails: FailsValue, visited: nat, threw: bool)

  /**
   * The loop of `getClone` exactly as written: a copy error runs `fails++`
   * on the array, which turns `fails` into a number; a later missing
   * source then calls `fails.push` on that number and throws.
   */
  function CloneAsWritten(deps: DepMap, present: set<Path>, copyErrors: set<Path>, i: nat, state: AsWrittenState): (r: AsWrittenState)
    requires i <= |deps|
    ensures r.visited <= |deps|
    decreases |deps| - i
  {
    if i == |deps| then state.(visited := i)
    else if deps[i].value !in present then
      match state.fails
      case FailNumber => state.(visited := i, threw := true)
      case FailArray(ps) => CloneAsWritten(deps, present, copyErrors, i + 1, state.(fails := FailArray(ps + [deps[i].value])))
    else if deps[i].value in copyErrors then
      CloneAsWritten(deps, present, copyErrors, i + 1, state.(fails := FailNumber))
    else
      CloneAsWritten(deps, present, copyErrors, i + 1, state.(log := state.log + [deps[i].key]))
  }

  /** A source that exists but whose copy rejects: the case that runs `fails++`. */
  predicate CopyRejected(b: Binding<DepKey, Path>, present: set<Path>, copyErrors: set<Path>)
  {
    b.value in present && b.value in copyErrors
  }

  /**
   * Entry `j` is a missing source reached after `fails` has become a number,
   * counting from entry `i`: either it was one already, or a rejected copy
   * lies in between. This is where the written loop throws.
   */
  ghost predicate BreaksAt(deps: DepMap, present: set<Path>, copyErrors: set<Path>, i: nat, j: nat, failsIsNumber: bool)
    requires j < |deps|
  {
    deps[j].value !in present &&
      (failsIsNumber || exists k :: i <= k < j && CopyRejected(deps[k], present, copyErrors))
  }

  /** Some entry from `i` on is one where the written loop throws. */
  ghost predicate BreaksFrom(deps: DepMap, present: set<Path>, copyErrors: set<Path>, i: nat, failsIsNumber: bool)
  {
    exists j :: i <= j < |deps| && BreaksAt(deps, present, copyErrors, i, j, failsIsNumber)
  }

  /** Some copy rejects among entries `i` to `n - 1`. */
  ghost predicate RejectedBetween(deps: DepMap, present: set<Path>, copyErrors: set<Path>, i: nat, n: nat)
  {
    exists k :: i <= k < n && k < |deps| && CopyRejected(deps[k], present, copyErrors)
  }

  /**
   * The written loop from entry `i` on: it throws exactly when a missing
   * source follows the point where `fails` became a number, and then stops
   * at the first such missing source; otherwise it visits every entry.
   * Either way it has logged the copied entries it passed, as the intended
   * loop does, and `fails` is a number exactly when a copy it passed rejected.
   */
  lemma {:induction false} CloneAsWrittenFrom(deps: DepMap, present: set<Path>, copyErrors: set<Path>, i: nat, state: AsWrittenState)
    requires i <= |deps|
    requires !state.threw && state.log == Succeeded(deps[..i], present, copyErrors)
    ensures var r := CloneAsWritten(deps, present, copyErrors, i, state);
            && i <= r.visited <= |deps|
            && (r.threw <==> BreaksFrom(deps, present, copyErrors, i, state.fails.FailNumber?))
            && (r.threw ==> r.visited < |deps| && BreaksAt(deps, present, copyErrors, i, r.visited, state.fails.FailNumber?))
            && (forall j :: i <= j < r.visited ==> !BreaksAt(deps, present, copyErrors, i, j, state.fails.FailNumber?))
            && r.log == Succeeded(deps[..r.visited], present, copyErrors)
            && (r.fails.FailNumber? <==> state.fails.FailNumber? || RejectedBetween(deps, present, copyErrors, i, r.visited))
            && (!r.threw ==> r.visited == |deps|)
    decreases |deps| - i
  {
    if i < |deps| {
      var b := deps[i];
      var f := state.fails.FailNumber?;
      assert deps[..i + 1][..i] == deps[..i];
      if b.value !in present && state.fails.FailNumber? {
        assert BreaksAt(deps, present, copyErrors, i, i, true);
      } else {
        var next := if b.value !in present then state.(fails := FailArray(state.fails.paths + [b.value]))
                    else if b.value in copyErrors then state.(fails := FailNumber)
                    else state.(log := state.log + [b.key]);
        CloneAsWrittenFrom(deps, present, copyErrors, i + 1, next);
        var r := CloneAsWritten(deps, present, copyErrors, i + 1, next);
        assert next.fails.FailNumber? == (f || CopyRejected(b, present, copyErrors));
        PassEntry(deps, present, copyErrors, i, r.visited, f);
      }
    }
  }

  /**
   * Entry `i`, when the loop passes it, is no place to throw, and the rest of
   * the loop behaves as a loop started at `i + 1` with `fails` a number
   * exactly when it was one already or entry `i` was a rejected copy.
   */
  lemma PassEntry(deps: DepMap, present: set<Path>, copyErrors: set<Path>, i: nat, visited: nat, failsIsNumber: bool)
    requires i < visited <= |deps|
    requires deps[i].value in present || !failsIsNumber
    ensures var f' := failsIsNumber || CopyRejected(deps[i], present, copyErrors);
            && !BreaksAt(deps, present, copyErrors, i, i, failsIsNumber)
            && (forall j :: i < j < |deps| ==>
                  (BreaksAt(deps, present, copyErrors, i, j, failsIsNumber) <==> BreaksAt(deps, present, copyErrors, i + 1, j, f')))
            && (BreaksFrom(deps, present, copyErrors, i, failsIsNumber) <==> BreaksFrom(deps, present, copyErrors, i + 1, f'))
            && (RejectedBetween(deps, present, copyErrors, i, visited) <==>
                  CopyRejected(deps[i], present, copyErrors) || RejectedBetween(deps, present, copyErrors, i + 1, visited))
  {
    var f' := failsIsNumber || CopyRejected(deps[i], present, copyErrors);
    forall j | i < j < |deps|
      ensures BreaksAt(deps, present, copyErrors, i, j, failsIsNumber) <==> BreaksAt(deps, present, copyErrors, i + 1, j, f')
    {
      BreaksAtShift(deps, present, copyErrors, i, j, failsIsNumber);
    }
    if BreaksFrom(deps, present, copyErrors, i, failsIsNumber) {
      var j :| i <= j < |deps| && BreaksAt(deps, present, copyErrors, i, j, failsIsNumber);
      BreaksAtShift(deps, present, copyErrors, i, j, failsIsNumber);
    }
    if BreaksFrom(deps, present, copyErrors, i + 1, f') {
      var j :| i + 1 <= j < |deps| && BreaksAt(deps, present, copyErrors, i + 1, j, f');
      BreaksAtShift(deps, present, copyErrors, i, j, failsIsNumber);
    }
  }

  /**
   * Passing entry `i` without throwing: a rejected copy there turns `fails`
   * into a number for the entries after it; any other entry changes nothing.
   */
  lemma BreaksAtShift(deps: DepMap, present: set<Path>, copyErrors: set<Path>, i: nat, j: nat, failsIsNumber: bool)
    requires i < j < |deps|
    ensures BreaksAt(deps, present, copyErrors, i, j, failsIsNumber) <==>
            BreaksAt(deps, present, copyErrors, i + 1, j, failsIsNumber || CopyRejected(deps[i], present, copyErrors))
  {
    if BreaksAt(deps, present, copyErrors, i, j, failsIsNumber) && !failsIsNumber && !CopyRejected(deps[i], present, copyErrors) {
      var k :| i <= k < j && CopyRejected(deps[k], present, copyErrors);
      assert i + 1 <= k;
    }
    if CopyRejected(deps[i], present, copyErrors) {
      assert i <= i < j;
    }
  }

  /**
   * The loop of `getClone` as written, for every input: it throws exactly
   * when some missing source comes after a rejected copy, and then stops at
   * the first such missing source; when it does not throw it visits every
   * entry and logs exactly what the intended loop logs. `fails` ends up a
   * number exactly when some copy the loop passed rejected.
   */
  lemma CloneAsWrittenOutcome(deps: DepMap, present: set<Path>, copyErrors: set<Path>)
    ensures var r := CloneAsWritten(deps, present, copyErrors, 0, AsWrittenState([], FailArray([]), 0, false));
            && (r.threw <==> exists j, k :: 0 <= k < j < |deps| && CopyRejected(deps[k], present, copyErrors) && deps[j].value !in present)
            && (r.threw ==> r.visited < |deps| && deps[r.visited].value !in present &&
                            (exists k :: 0 <= k < r.visited && CopyRejected(deps[k], present, copyErrors)) &&
                            (forall j, k :: 0 <= k < j < r.visited && CopyRejected(deps[k], present, copyErrors) ==> deps[j].value in present) &&
                            r.log == Succeeded(deps[..r.visited], present, copyErrors))
            && (!r.threw ==> r.visited == |deps| && r.log == Succeeded(deps, present, copyErrors))
            && (r.fails.FailNumber? <==> exists k :: 0 <= k < r.visited && CopyRejected(deps[k], present, copyErrors))
  {
    var r := CloneAsWritten(deps, present, copyErrors, 0, AsWrittenState([], FailArray([]), 0, false));
    assert deps[..0] == [];
    CloneAsWrittenFrom(deps, present, copyErrors, 0, AsWrittenState([], FailArray([]), 0, false));
    assert deps[..|deps|] == deps;
    if exists j, k :: 0 <= k < j < |deps| && CopyRejected(deps[k], present, copyErrors) && deps[j].value !in present {
      var j, k :| 0 <= k < j < |deps| && CopyRejected(deps[k], present, copyErrors) && deps[j].value !in present;
      assert BreaksAt(deps, present, copyErrors, 0, j, false);
    }
    forall j, k | 0 <= k < j < r.visited && CopyRejected(deps[k], present, copyErrors)
      ensures deps[j].value in present
    {
      assert !BreaksAt(deps, present, copyErrors, 0, j, false);
    }
  }

  /**
   * A copy error followed by a missing source: as written, the loop throws
   * at the second entry and never reaches the third, which the intended
   * loop (`Succeeded`/`Failed`, computed by `GetClone`) copies, skipping the
   * first two.
   */
  lemma FailsCounterBreaksLoop()
    ensures var html := Binding(DepKey("intro", "html"), ["app", "intro.html"]);
            var css := Binding(DepKey("intro", "styles"), ["app", "styles", "intro.css"]);
            var js := Binding(DepKey("intro", "scripts"), ["app", "scripts", "intro.js"]);
            var deps := [html, css, js];
            var present := {html.value, js.value};
            var copyErrors := {html.value};
            && CloneAsWritten(deps, present, copyErrors, 0, AsWrittenState([], FailArray([]), 0, false)).threw
            && CloneAsWritten(deps, present, copyErrors, 0, AsWrittenState([], FailArray([]), 0, false)).visited == 1
            && js.key !in CloneAsWritten(deps, present, copyErrors, 0, AsWrittenState([], FailArray([]), 0, false)).log
            && Succeeded(deps, present, copyErrors) == [js.key]
            && Failed(deps, present, copyErrors) == [html.value, css.value]
  {
    var html := Binding(DepKey("intro", "html"), ["app", "intro.html"]);
    var css := Binding(DepKey("intro", "styles"), ["app", "styles", "intro.css"]);
    var js := Binding(DepKey("intro", "scripts"), ["app", "scripts", "intro.js"]);
    var deps := [html, css, js];
    assert css.value != html.value && js.value != html.value && css.value != js.value;
    var present := {html.value, js.value};
    var copyErrors := {html.value};
    assert deps[..2] == [html, css] && [html, css][..1] == [html] && [html][..0] == [];
    assert Succeeded([html], present, copyErrors) == [] && Failed([html], present, copyErrors) == [html.value];
    assert Succeeded([html, css], present, copyErrors) == [];
    assert Failed([html, css], present, copyErrors) == [html.value, css.value];
  }
}
