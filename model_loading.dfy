/**
 * Model acquisition. Both entry points try the same weights in a fixed order,
 * each attempt inside the `except` of the one before, so the first that loads
 * wins and a failure of the last one propagates. Loading itself is an oracle:
 * the set of weight names that load at the time of the call.
 */
module ModelLoading {
  import opened Wrappers
  import opened Imaging

  /** A loaded detector, known by the weights it was loaded from. */
  datatype Model = Model(weights: string)

  /** `yolov11{size}-seg.pt`, then `yolov10{size}-seg.pt`, then `yolov8{size}-seg.pt`. */
  function Candidates(size: string): (c: seq<string>)
    ensures |c| == 3
  {
    ["yolov11" + size + "-seg.pt", "yolov10" + size + "-seg.pt", "yolov8" + size + "-seg.pt"]
  }

  /**
   * The nested `try`/`except` chain over `cands`: the first loadable candidate
   * is loaded; when none loads, the exception of the last attempt escapes.
   */
  function LoadFirst(cands: seq<string>, loadable: set<string>): (r: Result<Model, Failure>)
    requires |cands| > 0
    ensures r.Ok? <==> exists i :: 0 <= i < |cands| && cands[i] in loadable
    ensures r.Ok? ==> exists i :: 0 <= i < |cands| && r.value == Model(cands[i]) && cands[i] in loadable &&
                                  forall j :: 0 <= j < i ==> cands[j] !in loadable
    ensures r.Err? ==> r.error == ModelUnavailable(cands[|cands| - 1])
  {
    if cands[0] in loadable then Ok(Model(cands[0]))
    else if |cands| == 1 then Err(ModelUnavailable(cands[0]))
    else
      var r := LoadFirst(cands[1..], loadable);
      assert forall i :: 0 < i < |cands| ==> cands[i] == cands[1..][i - 1];
      r
  }

  /** The weight names tried, in order, by that chain. */
  function Attempted(cands: seq<string>, loadable: set<string>): (tried: seq<string>)
    requires |cands| > 0
    ensures 0 < |tried| <= |cands| && tried == cands[..|tried|]
    ensures forall j :: 0 <= j < |tried| - 1 ==> tried[j] !in loadable
    ensures tried[|tried| - 1] in loadable || |tried| == |cands|
  {
    if cands[0] in loadable || |cands| == 1 then [cands[0]]
    else [cands[0]] + Attempted(cands[1..], loadable)
  }

  /** Loading the model of a given size with the v11, v10, v8 fallback. */
  function LoadWithFallback(size: string, loadable: set<string>): Result<Model, Failure> {
    LoadFirst(Candidates(size), loadable)
  }

  /** The chain stops at the candidate it loaded: what it loads is the last name it tried. */
  lemma {:induction false} LoadedIsLastAttempted(cands: seq<string>, loadable: set<string>)
    requires |cands| > 0
    ensures var r := LoadFirst(cands, loadable); var tried := Attempted(cands, loadable);
            r.Ok? ==> r.value == Model(tried[|tried| - 1])
    ensures var r := LoadFirst(cands, loadable); var tried := Attempted(cands, loadable);
            r.Err? ==> tried == cands
  {
    if !(cands[0] in loadable || |cands| == 1) {
      LoadedIsLastAttempted(cands[1..], loadable);
    }
  }

  /** If v11 fails and v10 loads, the v10 weights are used and v8 is never tried. */
  lemma SecondCandidateScenario(size: string, loadable: set<string>)
    requires Candidates(size)[0] !in loadable && Candidates(size)[1] in loadable
    ensures LoadWithFallback(size, loadable) == Ok(Model("yolov10" + size + "-seg.pt"))
    ensures Attempted(Candidates(size), loadable) == Candidates(size)[..2]
  {
  }
}
