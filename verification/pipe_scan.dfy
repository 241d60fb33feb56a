/** The pipe scan of the dispatcher: a forward loop over all `count` tokens
    that records every index holding `"|"`, so the index it ends with is the
    LAST pipe marker, or -1 when there is none. */
module PipeScan {
  import opened Args

  const PipeMarker: string := "|"

  predicate IsPipe(s: Slot)
  {
    s == Some(PipeMarker)
  }

  /** The greatest index below `n` holding the pipe marker, or -1. */
  function LastPipe(a: seq<Slot>, n: int): (r: int)
    requires 0 <= n <= |a|
    ensures -1 <= r < n
    ensures r >= 0 ==> IsPipe(a[r])
    ensures forall j :: r < j < n ==> !IsPipe(a[j])
    decreases n
  {
    if n == 0 then -1
    else if IsPipe(a[n - 1]) then n - 1
    else LastPipe(a, n - 1)
  }

  /** No pipe marker among the first `n` slots exactly when the scan yields -1. */
  lemma NoPipeIff(a: seq<Slot>, n: int)
    requires 0 <= n <= |a|
    ensures LastPipe(a, n) == -1 <==> forall j :: 0 <= j < n ==> !IsPipe(a[j])
  {
  }

  /** The scan as the shell writes it: an ascending loop that overwrites the
      result on every match. */
  method ScanPipe(a: seq<Slot>, count: int) returns (containsPipe: int)
    requires 0 <= count <= |a|
    ensures -1 <= containsPipe < count
    ensures containsPipe >= 0 ==> IsPipe(a[containsPipe])
    ensures forall j :: containsPipe < j < count ==> !IsPipe(a[j])
    ensures containsPipe == LastPipe(a, count)
  {
    containsPipe := -1;
    var pipeIndex := 0;
    while pipeIndex < count
      invariant 0 <= pipeIndex <= count
      invariant containsPipe == LastPipe(a, pipeIndex)
    {
      if IsPipe(a[pipeIndex]) {
        containsPipe := pipeIndex;
      }
      pipeIndex := pipeIndex + 1;
    }
  }
}
