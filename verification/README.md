# Image-classification inference shim: a Dafny model

This project models the self-contained logic of a small C++ image-classification
program. The program has two inference backends: ONNX Runtime (`ONNXBackend`) and
LibTorch (`TorchBackend`). An `InferenceEngine` facade picks one of them by name.

The model covers:

- **Top-K selection** (`TopK`). The C++ code builds the index sequence `0..n-1`,
  runs `partial_sort` on its first `k` entries by descending score, and copies out
  the matching scores. `topk` (src/backend_onnx.cpp:33-41) and `topk_vec`
  (src/backend_libtorch.cpp:9-17) are the same code, so both backends use
  `TopK.Select`. `partial_sort` is not stable, so the contract is the
  tie-agnostic predicate `IsTopK`. `Select` computes one answer that `IsTopK`
  allows, using a selection loop over the index sequence.
- **Preprocessing** (`Imaging`). It has three steps:
  - a nearest-neighbour resize of the interleaved (HWC) RGB bytes to 224 x 224,
    using truncating integer division;
  - a relayout into a planar (CHW) buffer;
  - per-channel normalisation, applied pointwise.

  Both backends carry the same copy of this code.
- **Backend lifecycle** (`OnnxBackend`, `TorchBackend`). The model tracks which
  runtime handles are non-null, what `load` does to them, and the guards of
  `classify` that run before any other work. `HAS_TORCH_BACKEND` is a boolean
  parameter.
- **Engine** (`InferApi`). This covers `lower_copy`, the case-insensitive name
  dispatch of `init`, and the guard and routing of `classify`. The build flags
  `HAS_ONNX_BACKEND` and `HAS_TORCH_BACKEND` are the `Flags` parameter. The
  untyped `impl_` pointer becomes the sum type `Impl`.
- **Command-line helpers** (`Labels`, `Json`):
  - the line splitting of `load_labels`;
  - the label lookup with its `"class_<idx>"` fallback;
  - `join_json_array`.

  The label check in the command-line output path (src/main.cpp:142-145) is the
  same as in the HTTP handler. It runs only when the list is non-empty, so it
  agrees with `Labels.LabelFor`.

Exceptions are modelled as `Outcomes.Outcome`: a returned value or the message of
the exception thrown. Any state changed before the throw stays changed, so
`load` and `init` return the new state together with the outcome.

Some things are parameters of the model:

- What the native runtimes do is a parameter. A load is an
  `Outcomes.Attempt`, either success or an exception with its `what()`. A forward
  pass is a function `run` from the input tensor to the score vector.
- The normalisation `(v / 255 - mean[c]) / std[c]` is a parameter
  `norm(c, v)`.

Scores are `real`. Only `>` is applied to them, and NaN is excluded.

## Model

| member | source | states |
|---|---|---|
| TopK.Select | src/backend_onnx.cpp:33-41 | For `0 <= k <= n` it returns exactly `k` indices and `k` scores, with `val[i] == data[idx[i]]`. The indices are distinct and lie in `[0, n)`. The scores are non-increasing. No index left out has a score above any selected score. |
| TopK.FullSelectionIsPermutation | src/backend_onnx.cpp:34-38 | With `k == n` the indices are a permutation of `0..n-1` in descending score order, that is, a full descending sort. |
| TopK.ScoresDetermined | src/backend_onnx.cpp:36-37 | Any two answers the unstable sort may give carry the same score at every position. Only the order among equal scores is open. |
| Imaging.Interleaved | src/backend_onnx.cpp:84 | For a pixel inside an `h x w` image, the interleaved slot `(y*w+x)*3+c` lies inside the `h*w*3` buffer. |
| Imaging.Planar | src/backend_onnx.cpp:95 | The planar slot `c*h*w + y*w + x` lies inside the `3*h*w` buffer. |
| Imaging.InterleavedInjective | src/backend_onnx.cpp:84 | Distinct `(y, x, c)` write distinct slots of `resized`. |
| Imaging.PlanarInjective | src/backend_onnx.cpp:92-98 | Distinct `(c, y, x)` write distinct slots of the planar tensor. |
| Imaging.SourceCoord | src/backend_onnx.cpp:80-82 | For a source size greater than 0 and a destination row (or column) `d < outLen`, `d * srcLen / outLen` is a valid source row (or column). |
| Imaging.SourceCoordAsWritten | src/backend_onnx.cpp:80 | The row as the C++ code computes it, with `y * H` held in a 32-bit `int`, is always an `int` value. It equals the intended `y * H / outH` whenever the product fits in an `int`. |
| Imaging.SourceCoordAsWrittenWrongAt224 | src/backend_onnx.cpp:80 | For the 224-row resize the backends perform, the row computed as written differs from the intended one whenever `y * H` does not fit in an `int`. So the two agree exactly while the product fits. |
| Imaging.SourceCoordAsWrittenOverflows | src/backend_onnx.cpp:80 | With `y * H` computed in a 32-bit `int`, row 223 of a 10,000,000-row image gives a negative source row. |
| Imaging.SourceCoordAsWrittenAgrees | src/backend_onnx.cpp:80-82 | While `y * H` fits in an `int`, the row computed as written equals the intended one. |
| Imaging.Resize | src/backend_onnx.cpp:78-87 | The output holds `outH*outW*3` bytes. Every destination byte `(y, x, c)` copies the source byte of channel `c` at pixel `(y*H/outH, x*W/outW)`. That read lies inside the `W*H*3` buffer, and no interpolation happens. |
| Imaging.ResizeIdentity | src/backend_onnx.cpp:79-87 | Resizing to the source's own size returns the source bytes unchanged. |
| Imaging.ToPlanar | src/backend_onnx.cpp:91-101 | Planar slot `c*h*w + y*w + x` receives interleaved slot `(y*w+x)*3+c`, for every pixel and channel. |
| Imaging.PlanarRoundTrip | src/backend_onnx.cpp:91-101 | The relayout is a bijection on the `3*h*w` slots: the reverse relayout undoes it in both orders. |
| Imaging.Preprocess | src/backend_onnx.cpp:77-101 | The tensor has `3*h*w` values whatever the source size. Each value is `norm(c, ·)` of the source byte of channel `c` at the nearest pixel. |
| OnnxBackend.Load | src/backend_onnx.cpp:53-70 | It never returns false. When session creation fails, the environment is released (`env_` null) and the session and memory-info handles keep their values. The error is re-thrown with the prefix "ONNX load failed: ". On success all three handles are set. |
| OnnxBackend.LoadFresh | src/backend_onnx.cpp:53-70 | A new backend holds a session exactly when `load` returned. A failed load leaves every handle null. |
| OnnxBackend.Classify | src/backend_onnx.cpp:73-127 | It throws "Session not loaded" without a session, then "Expect 3-channel RGB input" when `C != 3`, both before any other work. Otherwise it returns a top-`k` answer over the model's scores for the preprocessed 224 x 224 tensor. |
| TorchBackend.Load | src/backend_libtorch.cpp:19-29 | Without `HAS_TORCH_BACKEND` it throws "LibTorch backend not enabled" and leaves the state unchanged. It never returns false. A loader exception passes through with the state unchanged. On success the module is set. |
| TorchBackend.Classify | src/backend_libtorch.cpp:31-77 | Without the build flag it always throws "LibTorch backend not enabled". Next it throws "Module not loaded" when there is no module, then "Expect RGB image" when `C != 3`. Otherwise it returns a top-`k` answer over the scores for the preprocessed 224 x 224 tensor. |
| InferApi.LowerCopy | src/infer_api.cpp:8-11 | The copy has the same length. Each upper-case ASCII letter becomes its lower-case partner, every other character is kept, and no upper-case letter is left. |
| InferApi.LowerCopyIdempotent | src/infer_api.cpp:8-11 | Lowercasing twice gives the same result as once. |
| InferApi.Choose | src/infer_api.cpp:14-24 | Any casing of "onnx" selects ONNX. Any casing of "libtorch" or "torch" selects LibTorch. No other name selects a backend. |
| InferApi.Init | src/infer_api.cpp:13-35 | For an unknown name, or a backend that is not built, it returns false and leaves the engine as it was. Otherwise it stores a fresh instance of the chosen backend. It then never returns false: it returns true exactly when that backend is ready, and throws exactly when the loader failed. `backend_` is never assigned. |
| InferApi.InitThrowLeavesImpl | src/infer_api.cpp:17-28 | When `load` throws, the exception leaves `init` with `impl_` already set to an unloaded backend. |
| InferApi.RouteAsWritten | src/infer_api.cpp:40-58 | Routing as written depends only on the build flags. It takes the ONNX path whenever ONNX is built, and otherwise the LibTorch path if that is built. |
| InferApi.Route | src/infer_api.cpp:37-59 | The corrected routing only reaches the class `impl_` holds. It reports "not built" exactly when that backend is not built. |
| InferApi.RouteAsWrittenMisroutesTorch | src/infer_api.cpp:24-47 | With both backends built, a successful `init("torch")` stores a `TorchBackend`, but `classify` as written takes the ONNX path. `backend_` still says ONNX. |
| InferApi.RouteAsWrittenAgreesUnlessTorchBesideOnnx | src/infer_api.cpp:40-56 | The written routing reaches the stored backend exactly unless a LibTorch backend was stored in a build that also has ONNX. |
| InferApi.Classify | src/infer_api.cpp:37-59 | It throws "Engine not initialized" while `impl_` is null. With the corrected routing, it throws "Selected backend not built" for a stored backend that is not built, and otherwise gives the stored backend's `classify` result. The C++ routing differs when both backends are built (see "Findings"). |
| InferApi.ClassifyBeforeInitRefuses | src/infer_api.cpp:20-34 | An `init` that returns false on a new engine leaves `impl_` null. `classify` therefore still refuses with "Engine not initialized". |
| Labels.GetLines | src/main.cpp:19 | The lines `std::getline` reads contain no newline. |
| Labels.GetLinesRoundTrip | src/main.cpp:19 | Joining the lines read with "\n" gives back the text, with one newline added when the last line had none. The split loses, reorders and invents nothing, and it keeps empty lines. |
| Labels.LoadLabels | src/main.cpp:14-24 | A file that cannot be opened gives no labels. Otherwise label `i` is line `i` with one trailing '\r' (or '\n') removed. |
| Labels.LoadLabelsUnixRoundTrip | src/main.cpp:18-22 | Lines terminated by "\n" come back exactly, in order, with empty lines kept, as long as none ends in '\r'. |
| Labels.LoadLabelsDosRoundTrip | src/main.cpp:20 | Lines terminated by "\r\n" come back exactly: one '\r' is stripped per line. |
| Labels.LoadLabelsExample | src/main.cpp:14-24 | The text "cat\ndog\n" gives the labels "cat" and "dog". |
| Labels.LoadLabelsUnterminatedExample | src/main.cpp:19-21 | A last line without a newline is still read: "cat\ndog" gives "cat" and "dog". |
| Labels.DecimalRoundTrip | src/main.cpp:106 | The decimal text `to_string` gives for an index reads back as that index, for negative indices too. |
| Labels.LabelFor | src/main.cpp:104-106 | An index in range of the list gets `labels[idx]`. Any other index gets "class_" followed by its decimal text, which reads back as the index, so distinct out-of-range indices get distinct labels. |
| Labels.TopLabels | src/main.cpp:103-107 | There is one label per predicted index, in order. A position whose index is in range gets the loaded label. Any other position gets "class_" and the index's decimal text, which reads back as the index. Two out-of-range positions with different indices never share a label. |
| Json.Escape | src/main.cpp:31-36 | The escaped length is the original length plus the number of '"' and '\' characters. |
| Json.Quote | src/main.cpp:37 | An element is written as a literal that starts and ends with '"' and is two characters longer than its escaped text. |
| Json.JoinJsonArray | src/main.cpp:26-42 | The output starts with '[' and ends with ']'. An empty list gives exactly "[]". |
| Json.JoinJsonArrayLength | src/main.cpp:37-38 | The output consists of the brackets, the quoted elements and exactly `n - 1` commas for `n > 0` elements, with no trailing comma. |
| Json.JoinJsonArrayRoundTrip | src/main.cpp:26-42 | Reading the output back gives the original list. So each element is quoted, escaped reversibly (each '"' becomes `\"`, each '\' becomes `\\`, nothing else changes) and separated by one comma, in order. |

## Left out

- TopK.Select: requires `0 <= k <= n`. The C++ code never checks this and reads out of bounds otherwise.
- InferApi.Classify: it uses the corrected routing `InferApi.Route`. The C++ routing, which takes the ONNX path for a stored `TorchBackend` whenever both backends are built, is modelled separately as `InferApi.RouteAsWritten` (see "Findings").
- OnnxBackend.Classify, TorchBackend.Classify, InferApi.Classify: these require a well-formed image once the guards pass, and `k` no larger than the model's output size. The C++ code reads the caller's buffer and the runtime's output without checking either.
- The native runtime calls are parameters: ONNX Runtime session creation and `Run`, and LibTorch `torch::jit::load`, `from_blob`, `forward` and `squeeze`. They are opaque foreign libraries.
- TorchBackend.Load: the switch to evaluation mode (`eval()`) has no counterpart in the model, because it acts only inside the runtime.
- The float normalisation arithmetic and its mean/std constants are out of scope. IEEE floats are not modelled, so `norm` is a parameter.
- NaN scores are excluded, because `IsTopK` assumes a total order on scores.
- `has_cuda_runtime` and the GPU warning in `ONNXBackend::load` are left out. They are dynamic-library probing and stderr output.
- Heap ownership is not modelled: raw `new`, `void*` casts, the missing destructors, and the instance a second `init` leaks. A second `init` is modelled as replacing `impl_`.
- `SetIntraOpNumThreads`, the `threads` argument and `SetGraphOptimizationLevel` are left out. They are runtime tuning.
- Throws from `new Ort::Env` and `Ort::MemoryInfo::CreateCpu` are not modelled. Only session creation can fail in the model.
- The inner `#else` branch of `TorchBackend::classify` (src/backend_libtorch.cpp:73-75) is unreachable: it sits inside a region compiled only when `HAS_TORCH_BACKEND` is defined. The model therefore has no "LibTorch backend not built" outcome.
- src/image_io.cpp is not part of this model. It is a thin wrapper over the image decoder.
- Also left out of src/main.cpp:
  - flag parsing and printing;
  - the HTTP server and its routes, including the fixed top-5;
  - the JSON fragments for indices and float scores;
  - the file-stream reading of `load_labels`, of which only the splitting of the file's text is modelled.
- The 32-bit overflow of `y * H` / `x * W` is modelled only under "Findings". The rest of the model uses the corrected unbounded computation. The same applies to the later overflow of `(sy * W + sx) * 3` for images over 2^31 bytes, which is not modelled at all.

## Findings

| source | as written | input that shows it | evidently intended | confidence | as-written member | corrected member |
|---|---|---|---|---|---|---|
| src/infer_api.cpp:40-56 | `classify` casts `impl_` to `ONNXBackend*` whenever `HAS_ONNX_BACKEND` is defined, whatever `init` stored. `backend_` (include/infer_api.h:16) is never assigned. | Both backends built; `init("torch", …)` succeeds; then `classify`. A `TorchBackend` object is used as an `ONNXBackend`. | Dispatch on the backend `init` stored. | high, not executed | InferApi.RouteAsWritten, InferApi.RouteAsWrittenMisroutesTorch | InferApi.Route, InferApi.Classify |
| src/backend_onnx.cpp:80 (also src/backend_libtorch.cpp:42) | `int sy = y * H / outH` multiplies in 32-bit `int`. | A 1 x 10,000,000 image: row 223 computes 2,230,000,000, which overflows, so `sy` is negative and the read goes before the buffer. | Compute the product wide enough that `0 <= sy < H`. | medium, not executed | Imaging.SourceCoordAsWritten, Imaging.SourceCoordAsWrittenOverflows | Imaging.SourceCoord |
