/** The per-line entry point of the shell: classification by fixed token
    positions, in-place NULL overwrites, and the choice of strategies.

    The classification is two independent decisions, both taken on the
    array before anything is overwritten:
      - background (`&` as last token) or else pipeline (some `|`, the last
        one wins), or neither;
      - redirection (`"<"` as second-to-last token of a line of more than
        two tokens) or else regular.
    So every line makes one or two strategy calls, and a background or
    pipeline line is also handed to `regularProcess` (or to
    `outputRedirection`) on the truncated array. */
module Dispatcher {
  import opened Args
  import opened PipeScan
  import opened Strategies

  const AmpMarker: string := "&"
  const RedirectMarker: string := "<"

  /** The three tests made before any slot is overwritten. */
  datatype Classification = Classification(amp: bool, pipe: int, file: bool)

  /** What one call of the entry point leaves behind: the array as the
      strategies last saw it, the calls made in order, and the return value. */
  datatype Outcome = Outcome(args: seq<Slot>, calls: seq<Invocation>, status: int)

  predicate HasBackground(calls: seq<Invocation>)
  {
    exists k :: 0 <= k < |calls| && calls[k].Background?
  }

  predicate HasPipeline(calls: seq<Invocation>)
  {
    exists k :: 0 <= k < |calls| && calls[k].Pipeline?
  }

  predicate HasRedirect(calls: seq<Invocation>)
  {
    exists k :: 0 <= k < |calls| && calls[k].Redirect?
  }

  predicate HasRegular(calls: seq<Invocation>)
  {
    exists k :: 0 <= k < |calls| && calls[k].Regular?
  }

  /** Some token among the first `count` is the pipe marker. */
  predicate ContainsPipe(a: seq<Slot>, count: int)
    requires 0 <= count <= |a|
  {
    exists j :: 0 <= j < count && IsPipe(a[j])
  }

  /** The tests of the entry point, all on the untouched array. */
  function Classify(a: seq<Slot>, count: int): (c: Classification)
    requires WellFormed(a, count)
    ensures c.amp <==> a[count - 1] == Some(AmpMarker)
    ensures c.pipe == -1 <==> !ContainsPipe(a, count)
    ensures c.pipe != -1 ==> 0 <= c.pipe < count && IsPipe(a[c.pipe]) &&
                             forall j :: c.pipe < j < count ==> !IsPipe(a[j])
    ensures c.file <==> count > 2 && a[count - 2] == Some(RedirectMarker)
  {
    NoPipeIff(a, count);
    Classification(a[count - 1] == Some(AmpMarker),
                   LastPipe(a, count),
                   count > 2 && a[count - 2] == Some(RedirectMarker))
  }

  /** The background-or-pipeline branch: at most one call, and at most one
      slot overwritten, the `&` slot or else the last pipe slot. */
  function FirstStage(a: seq<Slot>, count: int): (s: Stage)
    requires WellFormed(a, count)
    ensures |s.args| == |a| && |s.calls| <= 1
    ensures forall i :: 0 <= i < |a| ==>
              s.args[i] == (if FirstOverwrites(a, count, i) then None else a[i])
    ensures |s.calls| == 1 <==> a[count - 1] == Some(AmpMarker) || ContainsPipe(a, count)
    ensures a[count - 1] == Some(AmpMarker) ==> s.calls == [Background(Segment(a, 0, count - 1))]
    ensures a[count - 1] != Some(AmpMarker) && ContainsPipe(a, count) ==>
              var p := LastPipe(a, count);
              0 <= p < count &&
              s.calls == [Pipeline(Segment(a, 0, p), Segment(a, p + 1, count))]
  {
    var c := Classify(a, count);
    if c.amp then RunBackground(a, count)
    else if c.pipe != -1 then RunPipe(a, count, c.pipe)
    else Stage(a, [])
  }

  /** One call of the entry point on a well-formed line. */
  function Dispatch(a: seq<Slot>, count: int): (r: Outcome)
    requires WellFormed(a, count)
    ensures |r.args| == |a| && r.args[count] == None
    ensures r.status == 1
    ensures 1 <= |r.calls| <= 2
    ensures r.calls[|r.calls| - 1].Redirect? || r.calls[|r.calls| - 1].Regular?
    ensures |r.calls| == 2 ==> r.calls[0].Background? || r.calls[0].Pipeline?
  {
    var c := Classify(a, count);
    var s1 := FirstStage(a, count);
    var s2 := if c.file then RunRedirect(s1.args, count) else RunRegular(s1.args);
    Outcome(s2.args, s1.calls + s2.calls, 1)
  }

  /** Background runs exactly when the last token is `&`; that slot becomes
      NULL and `backgroundProcess` receives every token before it. */
  lemma BackgroundIff(a: seq<Slot>, count: int)
    requires WellFormed(a, count)
    ensures HasBackground(Dispatch(a, count).calls) <==> a[count - 1] == Some(AmpMarker)
    ensures a[count - 1] == Some(AmpMarker) ==>
              Dispatch(a, count).calls[0] == Background(Segment(a, 0, count - 1)) &&
              Dispatch(a, count).args[count - 1] == None
  {
    var r := Dispatch(a, count);
    var s1 := FirstStage(a, count);
    if a[count - 1] == Some(AmpMarker) {
      assert r.calls[0] == s1.calls[0];
    } else {
      assert forall k :: 0 <= k < |r.calls| ==> !r.calls[k].Background?;
    }
  }

  /** The pipeline runs exactly when the background branch did not and some
      token is `|`.  The LAST such slot becomes NULL; the first command is
      the tokens before it and the second the tokens after it up to the
      sentinel. */
  lemma PipelineIff(a: seq<Slot>, count: int)
    requires WellFormed(a, count)
    ensures HasPipeline(Dispatch(a, count).calls) <==>
              a[count - 1] != Some(AmpMarker) && ContainsPipe(a, count)
    ensures a[count - 1] != Some(AmpMarker) && ContainsPipe(a, count) ==>
              var p := LastPipe(a, count);
              0 <= p < count &&
              Dispatch(a, count).calls[0] == Pipeline(Segment(a, 0, p), Segment(a, p + 1, count)) &&
              Dispatch(a, count).args[p] == None
  {
    var r := Dispatch(a, count);
    var s1 := FirstStage(a, count);
    if a[count - 1] != Some(AmpMarker) && ContainsPipe(a, count) {
      assert r.calls[0] == s1.calls[0];
    } else {
      assert forall k :: 0 <= k < |r.calls| ==> !r.calls[k].Pipeline?;
    }
  }

  /** Where the redirected full command is cut: at slot `count - 3`, or
      earlier at a pipe slot the first branch NULLed. */
  function RedirectCut(a: seq<Slot>, count: int): (cut: int)
    requires WellFormed(a, count) && count > 2
    ensures 0 <= cut <= count - 3
  {
    var p := LastPipe(a, count);
    if a[count - 1] != Some(AmpMarker) && 0 <= p < count - 3 then p else count - 3
  }

  /** The file name `outputRedirection` receives: the last token, unless the
      first branch has just NULLed it (it was `&`, or it was the last `|`). */
  function RedirectFile(a: seq<Slot>, count: int): Option<string>
    requires WellFormed(a, count)
  {
    if a[count - 1] == Some(AmpMarker) || a[count - 1] == Some(PipeMarker) then None
    else a[count - 1]
  }

  /** Redirection runs exactly when the line has more than two tokens and
      the second-to-last one is `"<"`, judged on the untouched array. */
  lemma RedirectIff(a: seq<Slot>, count: int)
    requires WellFormed(a, count)
    ensures HasRedirect(Dispatch(a, count).calls) <==>
              count > 2 && a[count - 2] == Some(RedirectMarker)
  {
  }

  /** In the redirection branch slot `count - 3` becomes NULL, so the
      `commandBeforeFile` view is always empty and the full command is cut
      at `count - 3` or before; the file name is the last slot as the first
      branch left it. */
  lemma RedirectArguments(a: seq<Slot>, count: int)
    requires WellFormed(a, count)
    requires count > 2 && a[count - 2] == Some(RedirectMarker)
    ensures Dispatch(a, count).calls[|Dispatch(a, count).calls| - 1] ==
              Redirect(Segment(a, 0, RedirectCut(a, count)), [], RedirectFile(a, count))
    ensures Dispatch(a, count).args[count - 3] == None
  {
    var r := Dispatch(a, count);
    var s1 := FirstStage(a, count);
    var b := s1.args[count - 3 := None];
    assert r.calls[|r.calls| - 1] == Redirect(View(b, 0), View(b, count - 3), b[count - 1]);
    RedirectFullCommand(a, count, s1.args);
    assert b[count - 1] == s1.args[count - 1];
    if a[count - 1] == Some(PipeMarker) {
      assert LastPipe(a, count) == count - 1;
    }
    assert s1.args[count - 1] == RedirectFile(a, count);
  }

  /** The full command handed to `outputRedirection`: the view of the array
      once slot `count - 3` is NULLed on top of the first branch's overwrite. */
  lemma RedirectFullCommand(a: seq<Slot>, count: int, b: seq<Slot>)
    requires WellFormed(a, count) && count > 2
    requires |b| == |a|
    requires forall i :: 0 <= i < |a| ==>
               b[i] == (if FirstOverwrites(a, count, i) then None else a[i])
    ensures View(b[count - 3 := None], 0) == Segment(a, 0, RedirectCut(a, count))
  {
    var cut := RedirectCut(a, count);
    var c := b[count - 3 := None];
    assert AllPresent(c, 0, cut);
    ViewUpTo(c, 0, cut);
    assert Segment(c, 0, cut) == Segment(a, 0, cut);
  }

  /** `regularProcess` runs exactly when redirection does not, even on a
      background or pipeline line; it receives the tokens before the slot
      the first branch NULLed (all of them when neither ran). */
  lemma RegularIff(a: seq<Slot>, count: int)
    requires WellFormed(a, count)
    ensures HasRegular(Dispatch(a, count).calls) <==>
              !(count > 2 && a[count - 2] == Some(RedirectMarker))
    ensures !(count > 2 && a[count - 2] == Some(RedirectMarker)) ==>
              var r := Dispatch(a, count);
              var p := LastPipe(a, count);
              var cut := if a[count - 1] == Some(AmpMarker) then count - 1
                         else if p != -1 then p else count;
              0 <= cut <= count &&
              r.calls[|r.calls| - 1] == Regular(Segment(a, 0, cut))
  {
    var r := Dispatch(a, count);
    var c := Classify(a, count);
    var s1 := FirstStage(a, count);
    if !c.file {
      assert r.calls == s1.calls + [Regular(View(s1.args, 0))];
      FirstStageView(a, count);
    } else {
      assert forall k :: 0 <= k < |r.calls| ==> !r.calls[k].Regular?;
    }
  }

  /** The view from slot 0 after the first branch: the tokens before the
      `&`, or before the last `|`, or all of them. */
  lemma FirstStageView(a: seq<Slot>, count: int)
    requires WellFormed(a, count)
    ensures var p := LastPipe(a, count);
            var cut := if a[count - 1] == Some(AmpMarker) then count - 1
                       else if p != -1 then p else count;
            0 <= cut <= count &&
            View(FirstStage(a, count).args, 0) == Segment(a, 0, cut)
  {
    var b := FirstStage(a, count).args;
    var p := LastPipe(a, count);
    var cut := if a[count - 1] == Some(AmpMarker) then count - 1
               else if p != -1 then p else count;
    assert AllPresent(b, 0, cut) && b[cut] == None;
    ViewUpTo(b, 0, cut);
    assert Segment(b, 0, cut) == Segment(a, 0, cut);
  }

  /** Every line makes exactly one of the redirection or regular calls, at
      most one of the background or pipeline calls, and a second call exactly
      when one of those two ran first. */
  lemma CallShape(a: seq<Slot>, count: int)
    requires WellFormed(a, count)
    ensures var calls := Dispatch(a, count).calls;
            (HasRedirect(calls) <==> !HasRegular(calls)) &&
            !(HasBackground(calls) && HasPipeline(calls)) &&
            (|calls| == 2 <==> HasBackground(calls) || HasPipeline(calls))
  {
    BackgroundIff(a, count);
    PipelineIff(a, count);
    RedirectIff(a, count);
    RegularIff(a, count);
    var r := Dispatch(a, count);
    if |r.calls| == 1 {
      assert HasRedirect(r.calls) ==> r.calls[0].Redirect?;
      assert HasRegular(r.calls) ==> r.calls[0].Regular?;
    }
  }

  /** The slot the first branch overwrites: the `&` slot, or else the last
      pipe slot. */
  predicate FirstOverwrites(a: seq<Slot>, count: int, i: int)
    requires WellFormed(a, count)
  {
    var amp := a[count - 1] == Some(AmpMarker);
    var p := LastPipe(a, count);
    (amp && i == count - 1) || (!amp && p != -1 && i == p)
  }

  /** The slots the taken branches overwrite: those of the first branch and
      slot `count - 3` when redirection runs. */
  predicate Overwritten(a: seq<Slot>, count: int, i: int)
    requires WellFormed(a, count)
  {
    FirstOverwrites(a, count, i) ||
    (count > 2 && a[count - 2] == Some(RedirectMarker) && i == count - 3)
  }

  /** The array keeps its length and order; exactly the overwritten slots
      become NULL and every other slot keeps its token. */
  lemma OnlyNamedSlotsChange(a: seq<Slot>, count: int)
    requires WellFormed(a, count)
    ensures |Dispatch(a, count).args| == |a|
    ensures forall i :: 0 <= i < count ==>
              (Dispatch(a, count).args[i] == None <==> Overwritten(a, count, i))
    ensures forall i :: 0 <= i < |a| && !Overwritten(a, count, i) ==>
              Dispatch(a, count).args[i] == a[i]
  {
  }

  /** The imperative shape of the entry point: the three tests, then the two
      independent branches, overwriting the array in place. */
  method ProcessArglist(count: int, arglist: seq<Slot>)
    returns (args: seq<Slot>, calls: seq<Invocation>, status: int)
    requires WellFormed(arglist, count)
    ensures Outcome(args, calls, status) == Dispatch(arglist, count)
  {
    args := arglist;
    calls := [];
    var containsAmp := args[count - 1] == Some(AmpMarker);
    var containsPipe := ScanPipe(args, count);
    var containsFile := count > 2 && args[count - 2] == Some(RedirectMarker);
    if containsAmp {
      args := args[count - 1 := None];
      calls := calls + [Background(View(args, 0))];
    } else if containsPipe != -1 {
      args := args[containsPipe := None];
      calls := calls + [PipeArgs(args, containsPipe)];
    }
    ghost var s1 := FirstStage(arglist, count);
    assert args == s1.args && calls == s1.calls;
    if containsFile {
      args := args[count - 3 := None];
      var commandBeforeFile := View(args, count - 3);
      var fileName := args[count - 1];
      calls := calls + [Redirect(View(args, 0), commandBeforeFile, fileName)];
    } else {
      calls := calls + [Regular(View(args, 0))];
    }
    status := 1;
  }

  /** `echo hi &`: background on `echo hi`, then the regular run of the
      same truncated line. */
  lemma EchoInBackground()
    ensures WellFormed([Some("echo"), Some("hi"), Some("&"), None], 3)
    ensures Dispatch([Some("echo"), Some("hi"), Some("&"), None], 3).calls ==
              [Background(["echo", "hi"]), Regular(["echo", "hi"])]
  {
    var a := [Some("echo"), Some("hi"), Some("&"), None];
    BackgroundIff(a, 3);
    RegularIff(a, 3);
    assert Segment(a, 0, 2) == ["echo", "hi"];
  }

  /** `ls | wc -l`: the pipeline split at index 1, then the regular run of
      `ls` alone. */
  lemma ListIntoWordCount()
    ensures WellFormed([Some("ls"), Some("|"), Some("wc"), Some("-l"), None], 4)
    ensures Dispatch([Some("ls"), Some("|"), Some("wc"), Some("-l"), None], 4).calls ==
              [Pipeline(["ls"], ["wc", "-l"]), Regular(["ls"])]
  {
    var a := [Some("ls"), Some("|"), Some("wc"), Some("-l"), None];
    assert IsPipe(a[1]);
    assert LastPipe(a, 4) == 1;
    PipelineIff(a, 4);
    RegularIff(a, 4);
    assert Segment(a, 0, 1) == ["ls"];
    assert Segment(a, 2, 4) == ["wc", "-l"];
  }

  /** `ls -l < out`: slot `count - 3` is `-l`, so the full command shrinks to
      `ls` and the command before the file is empty. */
  lemma RedirectCutsCommand()
    ensures WellFormed([Some("ls"), Some("-l"), Some("<"), Some("out"), None], 4)
    ensures Dispatch([Some("ls"), Some("-l"), Some("<"), Some("out"), None], 4).calls ==
              [Redirect(["ls"], [], Some("out"))]
  {
    var a := [Some("ls"), Some("-l"), Some("<"), Some("out"), None];
    assert LastPipe(a, 4) == -1;
    RedirectIff(a, 4);
    RedirectArguments(a, 4);
    assert Segment(a, 0, 1) == ["ls"];
  }

  /** `x < &`: the `&` is seen first and runs `x <` in the background; the
      `"<"` test was made before that overwrite, so redirection runs too,
      with slot 0 NULLed (an empty full command) and a NULL file name.
      `outputRedirection` then calls `open` on that NULL name, which fails,
      and the shell exits there: this line never returns from the entry
      point (see `NullFileNameLines`). */
  lemma BackgroundThenRedirect()
    ensures WellFormed([Some("x"), Some("<"), Some("&"), None], 3)
    ensures Dispatch([Some("x"), Some("<"), Some("&"), None], 3).calls ==
              [Background(["x", "<"]), Redirect([], [], None)]
  {
    var a := [Some("x"), Some("<"), Some("&"), None];
    BackgroundIff(a, 3);
    RedirectArguments(a, 3);
    assert Segment(a, 0, 2) == ["x", "<"];
  }

  /** The lines on which `outputRedirection` receives a NULL file name, so
      that its `open` fails and the shell exits instead of returning 1:
      exactly the redirected lines whose last token is `&` or the last `|`. */
  lemma NullFileNameLines(a: seq<Slot>, count: int)
    requires WellFormed(a, count)
    ensures var calls := Dispatch(a, count).calls;
            (calls[|calls| - 1].Redirect? && calls[|calls| - 1].file == None) <==>
              count > 2 && a[count - 2] == Some(RedirectMarker) &&
              (a[count - 1] == Some(AmpMarker) || a[count - 1] == Some(PipeMarker))
  {
    if count > 2 && a[count - 2] == Some(RedirectMarker) {
      RedirectArguments(a, count);
    }
  }
}
