/** The inference engine facade (`InferenceEngine`): case-insensitive backend
    name dispatch in `init`, and the guard and routing of `classify`.

    The build flags `HAS_ONNX_BACKEND` and `HAS_TORCH_BACKEND` are the `Flags`
    parameter. `impl_` is modelled as the sum type `Impl` instead of an untyped
    pointer.
 */
module InferApi {
  import opened Outcomes
  import opened Imaging
  import TopK
  import OnnxBackend
  import TorchBackend

  /** Which backends the build includes. */
  datatype Flags = Flags(onnx: bool, torch: bool)

  /** The engine's `backend_` tag. */
  datatype BackendTag = ONNX | TORCH

  /** What `impl_` points to. */
  datatype Impl =
    | NoImpl
    | OnnxImpl(onnx: OnnxBackend.Backend)
    | TorchImpl(torch: TorchBackend.Backend)

  datatype Engine = Engine(backend: BackendTag, impl: Impl)

  /** A newly constructed engine: `backend_` is ONNX, `impl_` is null. */
  const Initial := Engine(ONNX, NoImpl)

  /** `tolower` in the "C" locale: only 'A'..'Z' change. */
  function ToLower(ch: char): (r: char)
    ensures 'A' <= ch <= 'Z' ==> r as int == ch as int + 32
    ensures !('A' <= ch <= 'Z') ==> r == ch
  {
    if 'A' <= ch <= 'Z' then (ch as int + 32) as char else ch
  }

  /** `lower_copy`: the string with every character passed through `tolower`:
      each upper-case ASCII letter becomes its lower-case partner, every other
      character is kept, and no upper-case letter is left. */
  function LowerCopy(s: string): (r: string)
    ensures |r| == |s|
    ensures forall i :: 0 <= i < |s| && 'A' <= s[i] <= 'Z' ==> r[i] as int == s[i] as int + 32
    ensures forall i :: 0 <= i < |s| && !('A' <= s[i] <= 'Z') ==> r[i] == s[i]
    ensures forall i :: 0 <= i < |r| ==> !('A' <= r[i] <= 'Z')
  {
    seq(|s|, i requires 0 <= i < |s| => ToLower(s[i]))
  }

  /** Lowercasing twice is lowercasing once. */
  lemma LowerCopyIdempotent(s: string)
    ensures LowerCopy(LowerCopy(s)) == LowerCopy(s)
  {
  }

  /** `s` spells the lower-case word `word` in any mixture of cases. */
  predicate CaseVariant(s: string, word: string) {
    && |s| == |word|
    && forall i :: 0 <= i < |s| ==>
         s[i] == word[i] || ('a' <= word[i] <= 'z' && s[i] as int == word[i] as int - 32)
  }

  predicate IsLowerWord(word: string) {
    forall i :: 0 <= i < |word| ==> 'a' <= word[i] <= 'z'
  }

  lemma LowerCopyMatches(s: string, word: string)
    requires IsLowerWord(word)
    ensures LowerCopy(s) == word <==> CaseVariant(s, word)
  {
    if CaseVariant(s, word) {
      assert forall i :: 0 <= i < |s| ==> LowerCopy(s)[i] == word[i];
    }
  }

  /** The backend `init` picks for a name, if any. Name matching ignores case:
      any casing of "onnx" selects ONNX, any casing of "libtorch" or "torch"
      selects LibTorch, and nothing else selects anything. */
  function Choose(name: string): (r: Option<BackendTag>)
    ensures r == Some(ONNX) <==> CaseVariant(name, "onnx")
    ensures r == Some(TORCH) <==> CaseVariant(name, "libtorch") || CaseVariant(name, "torch")
    ensures r == None <==>
      !CaseVariant(name, "onnx") && !CaseVariant(name, "libtorch") && !CaseVariant(name, "torch")
  {
    LowerCopyMatches(name, "onnx");
    LowerCopyMatches(name, "libtorch");
    LowerCopyMatches(name, "torch");
    var lb := LowerCopy(name);
    if lb == "onnx" then Some(ONNX)
    else if lb == "libtorch" || lb == "torch" then Some(TORCH)
    else None
  }

  /** Whether the backend behind `impl` is built into this binary. */
  predicate Built(flags: Flags, impl: Impl) {
    match impl
    case NoImpl => false
    case OnnxImpl(_) => flags.onnx
    case TorchImpl(_) => flags.torch
  }

  /** The backend behind `impl` can classify: its session or module is loaded. */
  predicate Ready(impl: Impl) {
    match impl
    case NoImpl => false
    case OnnxImpl(b) => b.session
    case TorchImpl(b) => b.hasModule
  }

  /** The engine after a call, and how the call ended. */
  datatype Step<T> = Step(engine: Engine, outcome: Outcome<T>)

  /** `init(name, model_path, threads)`: pick the backend by name; if it is built,
      store a fresh instance in `impl_` and then load it (`attempt` is what the
      native runtime's loader does). An unknown name, or a backend that is not
      built, returns false and leaves the engine as it was. `backend_` is never
      assigned. */
  function Init(e: Engine, flags: Flags, name: string, attempt: Attempt): (s: Step<bool>)
    ensures s.engine.backend == e.backend
    ensures Choose(name) == None ==> s == Step(e, Returned(false))
    ensures Choose(name) == Some(ONNX) && !flags.onnx ==> s == Step(e, Returned(false))
    ensures Choose(name) == Some(TORCH) && !flags.torch ==> s == Step(e, Returned(false))
    ensures s.outcome != Returned(false) <==>
      (Choose(name) == Some(ONNX) && flags.onnx) || (Choose(name) == Some(TORCH) && flags.torch)
    ensures s.outcome != Returned(false) ==>
      && (Choose(name) == Some(ONNX) ==> s.engine.impl.OnnxImpl?)
      && (Choose(name) == Some(TORCH) ==> s.engine.impl.TorchImpl?)
      && Built(flags, s.engine.impl)
      && (s.outcome == Returned(true) <==> Ready(s.engine.impl))
      && (s.outcome.Threw? <==> attempt.Failed?)
  {
    match Choose(name)
    case None => Step(e, Returned(false))
    case Some(ONNX) =>
      if !flags.onnx then Step(e, Returned(false))
      else
        var loaded := OnnxBackend.Load(OnnxBackend.Fresh, attempt);
        Step(e.(impl := OnnxImpl(loaded.backend)), loaded.outcome)
    case Some(TORCH) =>
      if !flags.torch then Step(e, Returned(false))
      else
        var loaded := TorchBackend.Load(flags.torch, TorchBackend.Fresh, attempt);
        Step(e.(impl := TorchImpl(loaded.backend)), loaded.outcome)
  }

  /** A throwing `load` propagates out of `init` with `impl_` already set: the
      engine is then past its "not initialized" guard yet holds an unloaded
      backend. */
  lemma InitThrowLeavesImpl(e: Engine, flags: Flags, name: string, what: string)
    requires (Choose(name) == Some(ONNX) && flags.onnx) || (Choose(name) == Some(TORCH) && flags.torch)
    ensures Init(e, flags, name, Failed(what)).outcome.Threw?
    ensures Init(e, flags, name, Failed(what)).engine.impl != NoImpl
    ensures !Ready(Init(e, flags, name, Failed(what)).engine.impl)
  {
  }

  /** Where `classify` sends a request. */
  datatype Path = OnnxPath | TorchPath | NotBuilt

  /** Routing as the C++ code does it: it looks only at the build flags, never at
      the backend `init` stored, and casts `impl_` to that path's class. */
  function RouteAsWritten(flags: Flags): (p: Path)
    ensures p == OnnxPath <==> flags.onnx
    ensures p == TorchPath <==> !flags.onnx && flags.torch
  {
    if flags.onnx then OnnxPath
    else if flags.torch then TorchPath
    else NotBuilt
  }

  /** Routing by the backend actually stored in `impl_`: a request only ever
      reaches the class `impl_` holds, and a built backend is always reached. */
  function Route(flags: Flags, impl: Impl): (p: Path)
    requires impl != NoImpl
    ensures p == OnnxPath ==> impl.OnnxImpl?
    ensures p == TorchPath ==> impl.TorchImpl?
    ensures p == NotBuilt <==> !Built(flags, impl)
  {
    match impl
    case OnnxImpl(_) => if flags.onnx then OnnxPath else NotBuilt
    case TorchImpl(_) => if flags.torch then TorchPath else NotBuilt
  }

  /** With both backends built, `init("torch")` stores a `TorchBackend`, yet the
      routing as written sends every request down the ONNX path, which
      reinterprets that object as an `ONNXBackend`. */
  lemma RouteAsWrittenMisroutesTorch()
    ensures var flags := Flags(true, true);
            var s := Init(Initial, flags, "torch", Succeeded);
            && s.outcome == Returned(true)
            && s.engine.impl.TorchImpl?
            && s.engine.backend == ONNX
            && RouteAsWritten(flags) == OnnxPath
            && Route(flags, s.engine.impl) == TorchPath
  {
    var flags := Flags(true, true);
    assert LowerCopy("torch") == "torch";
    var s := Init(Initial, flags, "torch", Succeeded);
  }

  /** The written routing goes where `impl_` really points exactly unless a
      LibTorch backend was stored in a build that also has ONNX. */
  lemma RouteAsWrittenAgreesUnlessTorchBesideOnnx(flags: Flags, impl: Impl)
    requires Built(flags, impl)
    ensures RouteAsWritten(flags) == Route(flags, impl) <==> !(flags.onnx && impl.TorchImpl?)
  {
  }

  /** What `classify` needs from its caller: what the backend it reaches needs. */
  predicate Admissible(e: Engine, flags: Flags, img: Image, k: int,
                       onnxRun: seq<real> -> seq<TopK.Score>, torchRun: seq<real> -> seq<TopK.Score>,
                       norm: (int, byte) -> real)
  {
    && (e.impl.OnnxImpl? ==> OnnxBackend.Admissible(e.impl.onnx, img, k, onnxRun, norm))
    && (e.impl.TorchImpl? ==> TorchBackend.Admissible(flags.torch, e.impl.torch, img, k, torchRun, norm))
  }

  /** `classify(rgb, w, h, c, topk)`: refuse before `init` has stored a backend,
      then hand the request to the stored backend (routed by `Route`), or fail
      when that backend is not built. */
  method Classify(e: Engine, flags: Flags, img: Image, k: int,
                  onnxRun: seq<real> -> seq<TopK.Score>, torchRun: seq<real> -> seq<TopK.Score>,
                  norm: (int, byte) -> real) returns (r: Outcome<TopK.Prediction>)
    requires Admissible(e, flags, img, k, onnxRun, torchRun, norm)
    ensures e.impl == NoImpl ==> r == Threw("Engine not initialized")
    ensures e.impl != NoImpl && !Built(flags, e.impl) ==> r == Threw("Selected backend not built")
    ensures e.impl.OnnxImpl? && flags.onnx ==>
      OnnxBackend.Classifies(e.impl.onnx, img, k, onnxRun, norm, r)
    ensures e.impl.TorchImpl? && flags.torch ==>
      TorchBackend.Classifies(true, e.impl.torch, img, k, torchRun, norm, r)
  {
    if e.impl == NoImpl {
      return Threw("Engine not initialized");
    }
    match Route(flags, e.impl)
    case OnnxPath =>
      r := OnnxBackend.Classify(e.impl.onnx, img, k, onnxRun, norm);
    case TorchPath =>
      r := TorchBackend.Classify(flags.torch, e.impl.torch, img, k, torchRun, norm);
    case NotBuilt =>
      r := Threw("Selected backend not built");
  }

  /** Before any successful `init`, `classify` refuses. */
  lemma ClassifyBeforeInitRefuses(flags: Flags, name: string, attempt: Attempt)
    requires Init(Initial, flags, name, attempt).outcome == Returned(false)
    ensures Init(Initial, flags, name, attempt).engine.impl == NoImpl
  {
  }
}
