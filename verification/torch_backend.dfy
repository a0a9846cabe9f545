/** The LibTorch backend (`TorchBackend`). `enabled` is the `HAS_TORCH_BACKEND`
    build flag: without it both operations always throw. The runtime itself
    (`torch::jit::load`, `forward`) is a parameter of the model.
 */
module TorchBackend {
  import opened Outcomes
  import opened Imaging
  import TopK

  /** Model input size, fixed at construction. */
  const InputH: nat := 224
  const InputW: nat := 224

  /** Whether `module_` is non-null. */
  datatype Backend = Backend(hasModule: bool)

  /** A newly constructed backend: no module. */
  const Fresh := Backend(false)

  /** The backend after `load`, and how `load` ended. */
  datatype Loaded = Loaded(backend: Backend, outcome: Outcome<bool>)

  const NotEnabled := "LibTorch backend not enabled"

  /** `load`: without the build flag, throw whatever the arguments; otherwise load
      the scripted module (`jitLoad` says what the runtime did), letting its
      exception through, and keep it on success. Never returns `false`. */
  function Load(enabled: bool, b: Backend, jitLoad: Attempt): (r: Loaded)
    ensures !enabled ==> r == Loaded(b, Threw(NotEnabled))
    ensures r.outcome != Returned(false)
    ensures r.outcome == Returned(true) <==> enabled && jitLoad.Succeeded?
    ensures r.outcome.Returned? ==> r.backend.hasModule
    ensures r.outcome.Threw? ==> r.backend == b
  {
    if !enabled then Loaded(b, Threw(NotEnabled))
    else match jitLoad
      case Failed(what) => Loaded(b, Threw(what))
      case Succeeded => Loaded(Backend(true), Returned(true))
  }

  /** What `classify` needs from its caller once it gets past its guards. */
  predicate Admissible(enabled: bool, b: Backend, img: Image, k: int,
                       run: seq<real> -> seq<TopK.Score>, norm: (int, byte) -> real)
  {
    enabled && b.hasModule && img.channels == 3 ==>
      WellFormed(img) && 0 <= k <= |run(Preprocess(img, InputH, InputW, norm))|
  }

  /** The outcomes `classify` may have: without the build flag it always throws;
      then the module check and the channel check, before any other work;
      otherwise a top-`k` answer over the model's scores for the 224 x 224 tensor. */
  predicate Classifies(enabled: bool, b: Backend, img: Image, k: int,
                       run: seq<real> -> seq<TopK.Score>, norm: (int, byte) -> real,
                       r: Outcome<TopK.Prediction>)
    requires Admissible(enabled, b, img, k, run, norm)
  {
    if !enabled then r == Threw(NotEnabled)
    else if !b.hasModule then r == Threw("Module not loaded")
    else if img.channels != 3 then r == Threw("Expect RGB image")
    else r.Returned? && TopK.IsTopKOf(run(Preprocess(img, InputH, InputW, norm)), k, r.value)
  }

  /** `classify`: guards, resize to 224 x 224, normalise into the planar tensor,
      run the module's `forward` (`run`), select the top `k`. */
  method Classify(enabled: bool, b: Backend, img: Image, k: int,
                  run: seq<real> -> seq<TopK.Score>, norm: (int, byte) -> real)
    returns (r: Outcome<TopK.Prediction>)
    requires Admissible(enabled, b, img, k, run, norm)
    ensures Classifies(enabled, b, img, k, run, norm, r)
  {
    if !enabled {
      return Threw(NotEnabled);
    }
    if !b.hasModule {
      return Threw("Module not loaded");
    }
    if img.channels != 3 {
      return Threw("Expect RGB image");
    }
    var input := Preprocess(img, InputH, InputW, norm);
    var scores := run(input);
    var indices, values := TopK.Select(scores, k);
    r := Returned(TopK.Prediction(indices, values));
  }
}
