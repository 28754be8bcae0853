# Attack-simulation pipeline, modelled in Dafny

This project models the core of a watermark-robustness study: two scripts that degrade every
source image under a fixed catalog of attacks and write each result to
`output/<attack or scenario>/<image file name>`.

- `apply_attacks.py` applies twelve single-step attacks (JPEG at four qualities, resize to 50 %
  and 75 % and back, a centre crop of 10, 25 or 40 % that is **not** resized back, a screenshot
  simulation, light and medium Gaussian noise).
- `apply_combined_attacks.py` applies ten named scenarios. Each scenario is an ordered chain of
  labelled steps, run as a left fold. Its centre crop **is** resized back to the original size.
  On success it prints the chain's labels as a trace.

Both executors open and normalise each image to RGB once. Every attack or scenario starts again
from that image. An exception in one attack or scenario voids only that output file. An
exception while opening or converting the image skips the image. The batch always continues.

## Structure

| file | module | models |
|---|---|---|
| outcomes.dfy | `Outcomes` | `Result` (a value or the message of the exception raised) and `Option` |
| raster.dfy | `Raster` | images as a grid of pixels; the imaging library as a record `Pil` of uninterpreted operations, with `Faithful` stating their documented geometry on RGB images; PIL's `crop` and numpy's clip-and-cast, exactly |
| transforms.dfy | `Transforms` | the operators both scripts define; `Step` values (operator plus parameter); the centre-box geometry |
| storage.dfy | `Storage` | the output tree as a value: directories, and the files keyed by (subdirectory, file name), each holding a complete image or the remains of an abandoned save; what one save does to its target |
| batch.dfy | `Batch` | what a batch over images x catalog entries does to the tree and how many pairs succeed, proved once for both scripts |
| attacks.dfy | `Attacks` | `apply_attacks.py`: crop-only `CropAttack`, the 12-attack catalog, the executor |
| combined_attacks.dfy | `CombinedAttacks` | `apply_combined_attacks.py`: crop-and-restore `CropAttack`, the 10-scenario catalog, chains, the trace, the executor |

The executors are imperative methods. Each loop of the scripts is a loop here. The bodies of
the image loops and of the attack and scenario loops are methods of their own; the directory
loop (`Storage.MakeDirs`) and the chain loop (`CombinedAttacks.RunScenario`) keep their bodies
inline. The output tree is a value that they take and return. Each pair of a catalog
entry and a source image ends in one write to output/<entry>/<image>:
- `Untouched`: the image could not be opened, or a step raised before `save`;
- `Written`: the result was saved;
- `Abandoned`: `save` opened the target with "w+b" and the encoder then raised.

The abandoned case follows `Image.save`. An earlier file at that path is left truncated, and a
file the save itself created is removed again. Each method's postcondition ties the new tree to
the `Batch` fold of these writes. The `Batch` lemmas then say what the fold means:
- a saved pair holds its result;
- an abandoned pair's file is broken if it existed before, and absent otherwise;
- an untouched pair's file is as it was;
- no other file changes.

The lines the executors print are specified the same way. `ImageLog` in each executor is
everything printed for one image, and the batch log is the images' logs joined in order
(`Batch.Joined`). Each method returns exactly that log.
- `apply_combined_attacks.py`: when an image opens, it prints one line per scenario, in
  catalog order. Line k names scenario k, and it is the success line with the chain's labels
  exactly when scenario k saved its result (`CombinedAttacks.ImageLinesMeaning`).
- `apply_attacks.py`: when an image opens, it prints a failure line for each attack whose result
  was not saved, in catalog order, and then the tally (`Attacks.ImageLogMeaning`). With distinct
  names, an attack is named on a failure line exactly when its result was not saved
  (`Attacks.FailedNamesMeaning`).

Design choices:
- Image sizes and crop offsets are exact integers.
- `int(w * s)` for the scales 0.25, 0.5 and 0.75 is `w * percent / 100` with truncation.
- The crop offset `int(w * (p / 100) / 2)` is taken as `w * p / 200` with truncation. This is
  an idealisation of the floating-point product at exact boundaries.
- The noise generator is a parameter `Draws`: one noise field per (entry name, image name,
  step position). Any run of the generator is one such function.
- The imaging library (decoding, conversion, Lanczos resampling, JPEG and PNG round trips,
  Gaussian blur, the encoder behind `save`) is a parameter `Pil`. Properties that depend on its
  geometry assume `Faithful(lib)`. Under it, conversion yields the requested mode at the same
  size. On an RGB image, resize yields the requested size, and the round trips and the blur
  keep the size; all of them return RGB. These clauses are limited to RGB inputs because the
  encoders may change other modes (a JPEG round trip of a mode "1" image returns "L"). The
  scripts only pass them RGB images, and the operators' contracts carry that guard.

What the code does, which the model follows:
- the downscale size is truncated, not rounded (`Transforms.Scaled`);
- a crop of 100 % does not raise: it leaves a strip of width `w % 2`;
- failures are only printed: nothing records them, and no step index is kept;
- the summary's "total generated" is images x catalog size whatever failed
  (`GeneratedCount` in both executors proves it is only an upper bound).
- `crop_attack` differs between the scripts on purpose: `apply_combined_attacks.py` resizes the
  crop back to the original size, and `apply_attacks.py` does not. Each executor has its own
  `CropAttack`.
- Both scripts also define `jpeg_compression`, `resize_attack`, `screenshot_simulation` and
  `gaussian_noise`. Their bodies agree except in one respect. `apply_attacks.py`'s `jpeg_compression` and `screenshot_simulation` re-open the buffer without
  `.copy()`. That image decodes on first use: the blur, or `save`, which decodes the result
  before it opens the output file. A decoding error therefore raises inside the same `try` and
  leaves the file untouched, as an error inside the operator would. The model uses one
  definition for both.

## Model

| member | source | states |
|---|---|---|
| Raster.CropToBox | apply_attacks.py:35 | `img.crop(box)` on a box with its corners in the image: raises exactly when right < left or lower < upper; otherwise the result is (right-left) x (lower-upper), keeps the mode, and pixel (y, x) is source pixel (top+y, left+x) |
| Raster.Clip | apply_combined_attacks.py:51 | `np.clip(v, 0, 255)` lies in [0, 255], is the identity inside that range and saturates at each end |
| Raster.NoisyChannel | apply_combined_attacks.py:51 | a channel plus its draw, clipped and cast to uint8, lies in [0, 255] |
| Transforms.JpegCompression | apply_combined_attacks.py:9-14 | on an RGB image, the JPEG round trip keeps the size and returns RGB whenever it does not raise; an error of the round trip is the operator's error |
| Transforms.Scaled | apply_combined_attacks.py:19 | `int(n * s)` is truncation: r*100 <= n*percent < r*100 + 100 |
| Transforms.Downscale | apply_combined_attacks.py:18-20 | on an RGB image, the intermediate image of resize_attack is (int(w*s), int(h*s)), truncated, in RGB |
| Transforms.ResizeAttack | apply_combined_attacks.py:16-22 | on an RGB image, resize_attack returns the original (w, h) in RGB, and succeeds only if the downscale did (apply_attacks.py:15-23 has the same body) |
| Transforms.CenterBox | apply_attacks.py:27-33 | left is int(w * p / 200) and top is int(h * p / 200), truncated; right = w - left and bottom = h - top |
| Transforms.CenterBoxInside | apply_attacks.py:27-33 | the centre box has left, top >= 0, right <= w and bottom <= h, for every percentage |
| Transforms.CenterBoxUpright | apply_attacks.py:30-35 | up to 100 % the box is never inverted, so `crop` accepts it |
| Transforms.CenterBoxNonEmpty | apply_attacks.py:30-33 | for 0 <= p < 100 and w, h >= 1: 0 <= left < right <= w and 0 <= top < bottom <= h |
| Transforms.MarginBelowHalf | apply_attacks.py:30 | for p < 100 and n >= 1, twice the margin int(n*p/200) is less than n |
| Transforms.MarginsFit | apply_attacks.py:30-33 | for p <= 100, twice the margin is at most n |
| Transforms.CenterBoxZero | apply_attacks.py:30-33 | a 0 % crop box is the whole image |
| Transforms.CenterBoxMonotone | apply_attacks.py:28-31 | a larger percentage never gives smaller margins |
| Transforms.ScreenshotSimulation | apply_combined_attacks.py:38-45 | on an RGB image, a PNG round trip and a 0.5-radius blur keep the size and return RGB whenever they do not raise |
| Transforms.GaussianNoise | apply_combined_attacks.py:47-52 | the noisy image keeps size, mode and channel count, and every channel lies in [0, 255] after clipping (same body in apply_attacks.py:49-54) |
| Transforms.NoiseFreeIsIdentity | apply_combined_attacks.py:47-52 | with all draws zero (sigma = 0), an 8-bit image comes back unchanged |
| Transforms.OpenAsRgb | apply_combined_attacks.py:142-146 | the normalised image is RGB and has the decoded image's size; an RGB image is used as decoded, with no conversion; a failed open fails |
| Storage.MakeDirs | apply_combined_attacks.py:127-128 | the directory loop adds exactly the catalog names, changes no file, and changes nothing at all when they all exist (exist_ok) |
| Storage.Put | apply_combined_attacks.py:160-161 | one write to one output file: an untouched file is as it was, a written one holds the image, an abandoned one is broken if it existed and absent otherwise; no other file changes |
| Storage.SaveEffect | apply_combined_attacks.py:160-161 | `save` leaves the target untouched exactly when the directory is missing, and writes the image exactly when the directory exists and the encoder accepts it |
| Storage.Save | apply_combined_attacks.py:160-161 | `save` succeeds exactly when the directory exists and the encoder accepts the image, and then the target holds the image, replacing any earlier file; a missing directory changes nothing; an encoder error leaves an earlier target broken and removes one the save created; the message says which of the two raised; no other file changes |
| Transforms.NoisyPixel | apply_combined_attacks.py:50-51 | one pixel with noise keeps its channel count, and each channel lies in [0, 255] |
| Batch.NothingWritten | apply_combined_attacks.py:141-171 | an image for which every entry left its file untouched (it failed to open, or every chain raised before saving) changes no file and counts no success |
| Batch.ImageTreeAt | apply_combined_attacks.py:149-166 | after the first j entries on one image, entry k's file is what entry k's own write made of it if k < j, and as before otherwise: with distinct names no other entry reaches it |
| Batch.ImageTreeOther | apply_combined_attacks.py:160 | the entries' writes for one image touch no file of another image or outside the catalog's directories |
| Batch.TreeAt | apply_combined_attacks.py:138-171 | after the first i images, entry k's file for image a < i is what that pair's write made of the file before the batch, also when an image name repeats |
| Batch.TreeOthers | apply_combined_attacks.py:138-171 | after the first i images, a file outside the catalog's directories, or named after none of those images, is as it was |
| Batch.OutputTree | apply_combined_attacks.py:138-171 | after the batch, each (entry, image) file is what that pair's write made of the file before: saved pairs hold their result, abandoned saves leave it broken or absent, earlier failures leave it as it was; every other file is untouched |
| Batch.ImageSuccessesBound | apply_combined_attacks.py:149-166 | at most j of the first j entries succeed for an image, and exactly j only when all of them wrote their file |
| Batch.SuccessesBound | apply_combined_attacks.py:175-177 | at most images x entries pairs succeed, and exactly that many only when every pair wrote its file |
| Batch.JoinedAt | apply_combined_attacks.py:138-171 | in the batch log, each image's lines stand whole and in order right after the lines of the images before it |
| CombinedAttacks.CropAttack | apply_combined_attacks.py:24-36 | on an RGB image, crop-then-resize returns the original size in RGB, and succeeds only if the crop of the centre box did |
| CombinedAttacks.Apply | apply_combined_attacks.py:65-123 | on an RGB image, every step of this script keeps the size and returns RGB whenever it does not raise |
| CombinedAttacks.Catalog | apply_combined_attacks.py:63-124 | ten scenarios with distinct names, each of two to five steps |
| CombinedAttacks.CatalogParameters | apply_combined_attacks.py:63-124 | every crop and resize percentage lies strictly between 0 and 100, every JPEG quality in [1, 95] |
| CombinedAttacks.Run | apply_combined_attacks.py:155-157 | the chain as a left fold, started on an RGB image, keeps its size and returns RGB |
| CombinedAttacks.RunSplit | apply_combined_attacks.py:155-157 | running a chain is running a prefix and feeding its result to the rest; an error in the prefix ends the chain |
| CombinedAttacks.RunScenario | apply_combined_attacks.py:152-157 | the loop's result is the left fold of the chain on the copy; its trace is the labels of the steps done, in order, and all of them on success |
| CombinedAttacks.Outcome | apply_combined_attacks.py:141-157 | a scenario's result is RGB with the source's size (the chain starts from the RGB image the open produced), and an image that fails to open or convert yields no result |
| CombinedAttacks.Effect | apply_combined_attacks.py:149-161 | a scenario leaves its file untouched exactly when opening the image or a step raised, and writes its result exactly when the chain succeeded and the encoder accepts it at quality 95; what it writes is RGB with the source's size |
| CombinedAttacks.Line | apply_combined_attacks.py:158-166 | the line a scenario prints names it, and is the success line with the chain's labels exactly when its result was saved |
| CombinedAttacks.ImageLinesMeaning | apply_combined_attacks.py:149-166 | the first k scenarios print k lines; line j names scenario j, and is its success line with its labels exactly when scenario j saved its result |
| CombinedAttacks.ProcessScenario | apply_combined_attacks.py:149-166 | one scenario on one image makes exactly its pair's write to output/<scenario>/<image>; its line names the scenario, and is the success line with the chain's labels exactly when that write saved the result |
| CombinedAttacks.EventStep | apply_combined_attacks.py:158-166 | one more scenario's line adds one to the image's success count exactly when it saved, and its trace is that scenario's labels |
| CombinedAttacks.ProcessImage | apply_combined_attacks.py:138-171 | one image makes exactly its scenarios' writes, in catalog order, and prints exactly its log: the open's error, or one line per scenario in catalog order, line k naming scenario k and carrying its trace exactly when scenario k saved; the success lines count the saved writes |
| CombinedAttacks.RunBatch | apply_combined_attacks.py:127-171 | the directories are created first; the tree is the fold of the batch's writes; the log is the images' logs in order; success lines equal the pairs that saved |
| CombinedAttacks.OutputFiles | apply_combined_attacks.py:149-171 | pair by pair: a saved scenario result is in output/<scenario>/<image>; an encoder error leaves that file broken, or absent if it was not there; an earlier failure leaves it as it was; other files are untouched |
| CombinedAttacks.GeneratedCount | apply_combined_attacks.py:173-177 | successful pairs are at most images x 10, and equal it only when every scenario saved for every image |
| CombinedAttacks.ProcessCombinedAttacks | apply_combined_attacks.py:54-179 | the whole run: the ten directories, each pair's file as its write left it and every other file untouched, the images' logs in order, the summary images x 10, and success lines equal to it only when every pair saved |
| Attacks.CropAttack | apply_attacks.py:25-35 | crop-only: the result is (w - 2*left) x (h - 2*top) in the same mode, and for p <= 100 it never raises |
| Attacks.CropAttackPixels | apply_attacks.py:25-35 | pixel (y, x) of the cropped image is the source pixel (top + y, left + x) of the centre box, and that pixel lies inside the source |
| Attacks.CropZeroIsIdentity | apply_attacks.py:25-35 | a 0 % crop returns the image unchanged |
| Attacks.Apply | apply_attacks.py:64-77 | on an RGB image every attack returns RGB, and all but the crop keep the size; crop and noise keep the mode of any image; the crop has the box's size; noise never raises and stays in [0, 255] |
| Attacks.Catalog | apply_attacks.py:64-77 | twelve attacks with distinct names |
| Attacks.CatalogCrops | apply_attacks.py:71-73 | every crop of the catalog is below 100 %, so no crop of an opened image raises |
| Attacks.Outcome | apply_attacks.py:94-104 | an attack's result is RGB (it starts from the RGB image the open produced); an image that fails to open or convert yields none; a crop of an opened image never fails |
| Attacks.Effect | apply_attacks.py:102-106 | an attack leaves its file untouched exactly when opening the image or the attack raised, and writes its result exactly when the attack succeeded and the encoder accepts it with the default options; what it writes is RGB |
| Attacks.Failure | apply_attacks.py:102-108 | an attack prints nothing exactly when its result was saved, and otherwise one failure line naming it |
| Attacks.FailuresBlame | apply_attacks.py:102-108 | every attack of a catalog prints, for any image, at most one line, a failure line naming it, and none exactly when its result was saved |
| Attacks.ImageFailuresCount | apply_attacks.py:101-108 | the failure lines of the first k attacks on an image are all failure lines, and add up to k with the attacks whose result was saved |
| Attacks.ImageFailuresNames | apply_attacks.py:101-108 | the failure lines of the first k attacks name, in catalog order, exactly those whose result was not saved |
| Attacks.FailedNamesMeaning | apply_attacks.py:101-108 | with distinct names, an attack is named among the failed ones exactly when its result was not saved, and failed names plus saved results number the attacks run |
| Attacks.ImageLogMeaning | apply_attacks.py:91-113 | an image's log is the open's error, or the failure lines of the attacks that did not save, named in catalog order, followed by the tally of all attacks, which every tally line reports |
| Attacks.ProcessAttack | apply_attacks.py:102-108 | one attack on one image makes exactly its pair's write to output/<attack>/<image>, and prints one failure line naming the attack exactly when that write did not save the result |
| Attacks.TallyLine | apply_attacks.py:110 | the tally line follows the failure lines and reports every attack of the catalog, whatever failed |
| Attacks.ProcessImage | apply_attacks.py:91-113 | one image makes exactly its attacks' writes, in catalog order, and prints exactly its log: one failure line per attack whose write did not save, naming those attacks in catalog order, then "12 applied" whatever failed; or one error line if it cannot be opened |
| Attacks.RunBatch | apply_attacks.py:79-113 | the directories are created first; the tree is the fold of the batch's writes; the log is the images' logs in order; every tally line reports the catalog size |
| Attacks.OutputFiles | apply_attacks.py:101-108 | pair by pair: a saved attack result is in output/<attack>/<image>; an encoder error leaves that file broken, or absent if it was not there; an earlier failure leaves it as it was; other files are untouched |
| Attacks.GeneratedCount | apply_attacks.py:115-119 | successful pairs are at most images x 12, and equal it only when every attack saved for every image |
| Attacks.ProcessAttacks | apply_attacks.py:56-121 | the whole run: the twelve directories, each pair's file as its write left it and every other file untouched, the images' logs in order, every tally line says 12, and the summary reports images x 12 |

## Left out

- Pixel semantics of JPEG and PNG encoding, Lanczos resampling, Gaussian blur, decoding and
  colour conversion: library internals, modelled as uninterpreted operations of `Pil`.
- The random draws of `np.random.normal` and their distribution: the draws are a parameter,
  and sigma is carried in the step but not interpreted.
- Floating point: crop offsets and downscale sizes are exact integer arithmetic.
- Raster.CropToBox: boxes that reach outside the image (PIL pads them) are excluded by its
  precondition, because the centre box never reaches outside.
- Transforms.GaussianNoise: `Image.fromarray` infers the mode from the array shape; the model
  keeps the input mode, which agrees for the RGB images the executors pass it.
- Lazy decoding of the source: for a file that is already RGB, `Image.open` may defer decoding
  errors to the first `copy()`, which happens inside each attack's own `try`. The model treats
  every decoding error of the source as an error of the open.
- Directory listing: the glob order and the `.jpg`/`.png` filter are not modelled. The source
  file names are a parameter.
- The bytes on disk: an abandoned save's remains are one value, `Broken`, whatever the encoder
  wrote before it raised. The output root's creation is not modelled. A `mkdir` failure aborts
  the run in the scripts and is not modelled.
- Console output other than the per-pair lines, the per-image tally and the summary figures:
  the progress headers and the scenario descriptions are print formatting.
- The CLI default directories and `__main__` handling: argument plumbing.
- The image-generation client and the watermark-embedding script: network and model wrappers
  outside this core.
