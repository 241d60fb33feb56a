/** The four execution strategies, abstracted to the arguments the
    dispatcher hands them.  Process creation, descriptor wiring, signal
    dispositions and waiting are not modelled; what is modelled is which
    strategy is called and which argv views it receives, taken from the
    array at the moment of the call. */
module Strategies {
  import opened Args

  /** One call of a strategy, with the argv views it received. */
  datatype Invocation =
    | Background(argv: seq<string>)
    | Pipeline(first: seq<string>, second: seq<string>)
    | Redirect(full: seq<string>, before: seq<string>, file: Option<string>)
    | Regular(argv: seq<string>)

  /** The argument array after a step, with the calls made during it. */
  datatype Stage = Stage(args: seq<Slot>, calls: seq<Invocation>)

  /** Background branch: slot `count - 1` (the `&`) becomes NULL and
      `backgroundProcess` receives the array from its start. */
  function RunBackground(a: seq<Slot>, count: int): (r: Stage)
    requires WellFormed(a, count)
    ensures |r.args| == |a| && r.args[count - 1] == None
    ensures forall i :: 0 <= i < |a| && i != count - 1 ==> r.args[i] == a[i]
    ensures r.calls == [Background(Segment(a, 0, count - 1))]
  {
    var b := a[count - 1 := None];
    ViewAfterNull(a, count, 0, count - 1);
    Stage(b, [Background(View(b, 0))])
  }

  /** The two argv vectors `pipeProcess` executes: the array from its start,
      and the array from one past the (already NULLed) pipe slot. */
  function PipeArgs(a: seq<Slot>, pipeIndex: int): (r: Invocation)
    requires 0 <= pipeIndex < |a|
    requires a[pipeIndex] == None
    ensures r.Pipeline?
    ensures |r.first| <= pipeIndex
    ensures forall k {:trigger r.first[k]} :: 0 <= k < |r.first| ==> a[k] == Some(r.first[k])
    ensures a[|r.first|] == None
    ensures pipeIndex + 1 + |r.second| <= |a|
    ensures forall k :: 0 <= k < |r.second| ==> a[pipeIndex + 1 + k] == Some(r.second[k])
    ensures pipeIndex + 1 + |r.second| == |a| || a[pipeIndex + 1 + |r.second|] == None
  {
    ViewStopsAtNull(a, 0, pipeIndex);
    Pipeline(View(a, 0), View(a, pipeIndex + 1))
  }

  /** Pipeline branch: the pipe slot becomes NULL, splitting the tokens into
      the command before it and the command after it. */
  function RunPipe(a: seq<Slot>, count: int, pipeIndex: int): (r: Stage)
    requires WellFormed(a, count)
    requires 0 <= pipeIndex < count
    ensures |r.args| == |a| && r.args[pipeIndex] == None
    ensures forall i :: 0 <= i < |a| && i != pipeIndex ==> r.args[i] == a[i]
    ensures r.calls == [Pipeline(Segment(a, 0, pipeIndex), Segment(a, pipeIndex + 1, count))]
  {
    var b := a[pipeIndex := None];
    ViewAfterNull(a, count, 0, pipeIndex);
    ViewUpTo(b, pipeIndex + 1, count);
    assert Segment(b, pipeIndex + 1, count) == Segment(a, pipeIndex + 1, count);
    Stage(b, [PipeArgs(b, pipeIndex)])
  }

  /** Redirection branch, applied to the array `b` left by the background or
      pipe branch.  Slot `count - 3` becomes NULL; `commandBeforeFile` is the
      view starting at that very slot, so it is always empty, and the file
      name is slot `count - 1` as `b` now holds it. */
  function RunRedirect(b: seq<Slot>, count: int): (r: Stage)
    requires 3 <= count < |b|
    ensures |r.args| == |b| && r.args[count - 3] == None
    ensures forall i :: 0 <= i < |b| && i != count - 3 ==> r.args[i] == b[i]
    ensures |r.calls| == 1 && r.calls[0].Redirect?
    ensures r.calls[0].before == []
    ensures r.calls[0].file == b[count - 1]
    ensures |r.calls[0].full| <= count - 3
    ensures forall k {:trigger r.calls[0].full[k]} ::
              0 <= k < |r.calls[0].full| ==> r.args[k] == Some(r.calls[0].full[k])
    ensures r.args[|r.calls[0].full|] == None
  {
    var c := b[count - 3 := None];
    ViewStopsAtNull(c, 0, count - 3);
    Stage(c, [Redirect(View(c, 0), View(c, count - 3), c[count - 1])])
  }

  /** Regular branch: `regularProcess` receives the array as it stands. */
  function RunRegular(b: seq<Slot>): (r: Stage)
    ensures r.args == b
    ensures |r.calls| == 1 && r.calls[0].Regular?
    ensures |r.calls[0].argv| <= |b|
  {
    Stage(b, [Regular(View(b, 0))])
  }
}
