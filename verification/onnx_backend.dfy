/** The ONNX Runtime backend (`ONNXBackend`): which runtime handles it holds,
    what `load` does to them, and the guards and pipeline of `classify`.
    The runtime itself (session creation, `Run`) is a parameter of the model.
 */
module OnnxBackend {
  import opened Outcomes
  import opened Imaging
  import TopK

  /** Model input size, fixed at construction. */
  const InputH: nat := 224
  const InputW: nat := 224

  /** Which of the backend's handles (`env_`, `session_`, `memory_info_`) are non-null. */
  datatype Backend = Backend(env: bool, session: bool, memoryInfo: bool)

  /** A newly constructed backend: every handle null. */
  const Fresh := Backend(false, false, false)

  /** The backend after `load`, and how `load` ended. */
  datatype Loaded = Loaded(backend: Backend, outcome: Outcome<bool>)

  /** `load`: create the environment, then the session (`session` says what the
      runtime did). A failed session creation releases the environment and is
      re-thrown with a prefix; `load` never returns `false`. */
  function Load(b: Backend, session: Attempt): (r: Loaded)
    ensures r.outcome != Returned(false)
    ensures r.outcome == Returned(true) <==> session.Succeeded?
    ensures r.outcome.Returned? ==> r.backend == Backend(true, true, true)
    ensures r.outcome.Threw? ==>
      && r.outcome.message == "ONNX load failed: " + session.what
      && !r.backend.env
      && r.backend.session == b.session
      && r.backend.memoryInfo == b.memoryInfo
  {
    var withEnv := b.(env := true);
    match session
    case Failed(what) => Loaded(withEnv.(env := false), Threw("ONNX load failed: " + what))
    case Succeeded => Loaded(withEnv.(session := true, memoryInfo := true), Returned(true))
  }

  /** A fresh backend ends up able to classify exactly when `load` returned; a
      failed load leaves every handle null. */
  lemma LoadFresh(session: Attempt)
    ensures Load(Fresh, session).backend.session <==> Load(Fresh, session).outcome == Returned(true)
    ensures Load(Fresh, session).outcome.Threw? ==> Load(Fresh, session).backend == Fresh
  {
  }

  /** What `classify` needs from its caller once it gets past its guards: a
      well-formed image, and `0 <= k <= n` for the `n` scores the model returns. */
  predicate Admissible(b: Backend, img: Image, k: int, run: seq<real> -> seq<TopK.Score>,
                       norm: (int, byte) -> real)
  {
    b.session && img.channels == 3 ==>
      WellFormed(img) && 0 <= k <= |run(Preprocess(img, InputH, InputW, norm))|
  }

  /** The outcomes `classify` may have: the session check, then the channel
      check, both before any other work; otherwise a top-`k` answer over the
      scores the model gives for the preprocessed 224 x 224 tensor. */
  predicate Classifies(b: Backend, img: Image, k: int, run: seq<real> -> seq<TopK.Score>,
                       norm: (int, byte) -> real, r: Outcome<TopK.Prediction>)
    requires Admissible(b, img, k, run, norm)
  {
    if !b.session then r == Threw("Session not loaded")
    else if img.channels != 3 then r == Threw("Expect 3-channel RGB input")
    else r.Returned? && TopK.IsTopKOf(run(Preprocess(img, InputH, InputW, norm)), k, r.value)
  }

  /** `classify`: guards, resize to 224 x 224, normalise into the planar tensor,
      run the model (`run`), select the top `k`. */
  method Classify(b: Backend, img: Image, k: int, run: seq<real> -> seq<TopK.Score>,
                  norm: (int, byte) -> real) returns (r: Outcome<TopK.Prediction>)
    requires Admissible(b, img, k, run, norm)
    ensures Classifies(b, img, k, run, norm, r)
  {
    if !b.session {
      return Threw("Session not loaded");
    }
    if img.channels != 3 {
      return Threw("Expect 3-channel RGB input");
    }
    var input := Preprocess(img, InputH, InputW, norm);
    var scores := run(input);
    var indices, values := TopK.Select(scores, k);
    r := Returned(TopK.Prediction(indices, values));
  }
}
