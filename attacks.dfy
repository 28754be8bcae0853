/**
 * apply_attacks.py: twelve single-step attacks applied to every source image, each to its own
 * copy of the once-normalised RGB image; each result is saved under output/<attack>/<image
 * name>, and an exception in one attack voids only that attack's file for that image.
 */
module Attacks {
  import opened Outcomes
  import opened Raster
  import opened Transforms
  import opened Storage
  import Batch

  /**
   * This script's crop_attack: the centre box and nothing else, so the result is
   * (w - 2 * left) x (h - 2 * top) and holds the pixels of the box.
   */
  function CropAttack(img: Image, percent: nat): (r: Result<Image>)
    ensures r.Ok? ==> r.value.mode == img.mode
    ensures r.Ok? ==>
      r.value.width == img.width - 2 * CenterBox(img.width, img.height, percent).left &&
      r.value.height == img.height - 2 * CenterBox(img.width, img.height, percent).top
    ensures percent <= 100 ==> r.Ok?
  {
    var b := CenterBox(img.width, img.height, percent);
    CenterBoxInside(img.width, img.height, percent);
    CenterBoxUpright(img.width, img.height, percent);
    CropToBox(img, b)
  }

  /** The cropped image holds exactly the pixels of the centre box, shifted to the origin. */
  lemma CropAttackPixels(img: Image, percent: nat, y: nat, x: nat)
    requires CropAttack(img, percent).Ok?
    requires y < CropAttack(img, percent).value.height && x < CropAttack(img, percent).value.width
    ensures var b := CenterBox(img.width, img.height, percent);
      b.top + y < img.height && b.left + x < img.width &&
      CropAttack(img, percent).value.rows[y][x] == img.rows[b.top + y][b.left + x]
  {
    var b := CenterBox(img.width, img.height, percent);
    CenterBoxInside(img.width, img.height, percent);
    assert CropAttack(img, percent) == CropToBox(img, b);
  }

  /** Cropping by 0 % returns the image unchanged. */
  lemma CropZeroIsIdentity(img: Image)
    ensures CropAttack(img, 0) == Ok(img)
  {
    CenterBoxZero(img.width, img.height);
    var r := CropAttack(img, 0).value;
    assert r.width == img.width && r.height == img.height && r.mode == img.mode;
    forall y | 0 <= y < img.height
      ensures r.rows[y] == img.rows[y]
    {
      assert |r.rows[y]| == |img.rows[y]|;
      forall x | 0 <= x < img.width
        ensures r.rows[y][x] == img.rows[y][x]
      {
        CropAttackPixels(img, 0, y, x);
      }
    }
    assert r.rows == img.rows;
  }

  /** One attack, with this script's operators. */
  function Apply(lib: Pil, step: Step, img: Image, field: Field): (r: Result<Image>)
    ensures Faithful(lib) && img.mode == RGB && r.Ok? ==> r.value.mode == RGB
    ensures r.Ok? && (step.Crop? || step.Noise?) ==> r.value.mode == img.mode
    ensures Faithful(lib) && img.mode == RGB && r.Ok? && !step.Crop? ==> SameSize(r.value, img)
    ensures r.Ok? && step.Crop? ==>
      var b := CenterBox(img.width, img.height, step.percent);
      r.value.width == img.width - 2 * b.left && r.value.height == img.height - 2 * b.top
    ensures step.Noise? ==> r.Ok? && InByteRange(r.value)
  {
    match step
    case Jpeg(quality) => JpegCompression(lib, img, quality)
    case Resize(percent) => ResizeAttack(lib, img, percent)
    case Crop(percent) => CropAttack(img, percent)
    case Screenshot => ScreenshotSimulation(lib, img)
    case Noise(_) => Ok(GaussianNoise(img, field))
  }

  datatype Attack = Attack(name: string, step: Step)

  /** The attacks dictionary, in its insertion order: twelve attacks, one directory each. */
  function Catalog(): (c: seq<Attack>)
    ensures |c| == 12 && |Names(c)| == 12 && Batch.Distinct(Names(c))
  {
    [ Attack("jpeg_95", Jpeg(95)), Attack("jpeg_75", Jpeg(75)), Attack("jpeg_50", Jpeg(50)),
      Attack("jpeg_30", Jpeg(30)), Attack("resize_50", Resize(50)), Attack("resize_75", Resize(75)),
      Attack("crop_10", Crop(10)), Attack("crop_25", Crop(25)), Attack("crop_40", Crop(40)),
      Attack("screenshot", Screenshot), Attack("noise_light", Noise(5)), Attack("noise_medium", Noise(10)) ]
  }

  /** The attack names of a catalog: its output subdirectories. */
  function Names(catalog: seq<Attack>): seq<string>
  {
    seq(|catalog|, k requires 0 <= k < |catalog| => catalog[k].name)
  }

  /** No crop of the catalog takes the whole image, so no crop raises. */
  lemma CatalogCrops()
    ensures forall k :: 0 <= k < |Catalog()| && Catalog()[k].step.Crop? ==> Catalog()[k].step.percent < 100
  {
  }

  /** What attack a yields for the source file n: the attack on the normalised image. */
  function Outcome(lib: Pil, draws: Draws, a: Attack, n: string): (r: Result<Image>)
    ensures Faithful(lib) && r.Ok? ==> r.value.mode == RGB && OpenAsRgb(lib, n).Ok?
    ensures OpenAsRgb(lib, n).Err? ==> r.Err?
    ensures OpenAsRgb(lib, n).Ok? && a.step.Crop? && a.step.percent <= 100 ==> r.Ok?
  {
    match OpenAsRgb(lib, n)
    case Err(e) => Err(e)
    case Ok(img) => Apply(lib, a.step, img, draws(a.name, n, 0))
  }

  /**
   * What attack a does to output/<attack>/<n>, its directory existing: nothing when the image
   * cannot be opened or the attack raises; otherwise what saving the result with the default
   * options does to it.
   */
  function Effect(lib: Pil, draws: Draws, a: Attack, n: string): (w: Write)
    ensures w.Untouched? <==> Outcome(lib, draws, a, n).Err?
    ensures w.Written? <==> Outcome(lib, draws, a, n).Ok? && lib.canSave(Outcome(lib, draws, a, n).value, n, DefaultQuality)
    ensures w.Written? ==> w.image == Outcome(lib, draws, a, n).value
    ensures Faithful(lib) && w.Written? ==> w.image.mode == RGB
  {
    var o := Outcome(lib, draws, a, n);
    if o.Err? then Untouched else SaveEffect(lib, {a.name}, a.name, n, o.value, DefaultQuality)
  }

  function EffectsBy(lib: Pil, draws: Draws, catalog: seq<Attack>): Batch.Effects
  {
    (k: nat, n: string) => if k < |catalog| then Effect(lib, draws, catalog[k], n) else Untouched
  }

  /** The lines the run prints: a failed attack, the per-image tally, an undecodable image. */
  datatype Event =
    | AttackFailed(attack: string, message: string)
    | ImageDone(applied: nat)
    | ImageFailed(image: string, message: string)

  /**
   * The failure line attack a prints for the image n: none when its result was saved, and
   * otherwise one naming the attack, with the message of the attack or of the save that raised.
   */
  function Failure(lib: Pil, draws: Draws, a: Attack, n: string): (f: seq<Event>)
    ensures f == [] <==> Effect(lib, draws, a, n).Written?
    ensures |f| <= 1 && forall e :: e in f ==> e.AttackFailed? && e.attack == a.name
  {
    var o := Outcome(lib, draws, a, n);
    if o.Err? then [AttackFailed(a.name, o.message)]
    else if lib.canSave(o.value, n, DefaultQuality) then []
    else [AttackFailed(a.name, EncoderError)]
  }

  /** The failure lines of the first k catalog entries, entry j printing lines(j), in catalog order. */
  function ImageFailures(lines: nat -> seq<Event>, k: nat): seq<Event>
  {
    if k == 0 then [] else ImageFailures(lines, k - 1) + lines(k - 1)
  }

  /** What each attack of the catalog prints for the image n. */
  function FailuresOf(lib: Pil, draws: Draws, catalog: seq<Attack>, n: string): nat -> seq<Event>
  {
    (j: nat) => if j < |catalog| then Failure(lib, draws, catalog[j], n) else []
  }

  /** Everything printed for the image n: its failure lines and the tally, or the one error of the open. */
  function ImageLog(lib: Pil, draws: Draws, catalog: seq<Attack>, n: string): seq<Event>
  {
    match OpenAsRgb(lib, n)
    case Err(message) => [ImageFailed(n, message)]
    case Ok(_) => ImageFailures(FailuresOf(lib, draws, catalog, n), |catalog|) + [ImageDone(|catalog|)]
  }

  function LogOf(lib: Pil, draws: Draws, catalog: seq<Attack>): string -> seq<Event>
  {
    n => ImageLog(lib, draws, catalog, n)
  }

  /** The names of the first k entries whose result was not saved for the image n, in catalog order. */
  function FailedNames(names: seq<string>, effects: Batch.Effects, n: string, k: nat): seq<string>
    requires k <= |names|
  {
    if k == 0 then []
    else if effects(k - 1, n).Written? then FailedNames(names, effects, n, k - 1)
    else FailedNames(names, effects, n, k - 1) + [names[k - 1]]
  }

  /** Each entry prints one failure line naming it when its result was not saved, and nothing otherwise. */
  ghost predicate Blames(lines: nat -> seq<Event>, effects: Batch.Effects, names: seq<string>, n: string)
  {
    forall j :: 0 <= j < |names| ==>
      |lines(j)| <= 1 && (lines(j) == [] <==> effects(j, n).Written?) &&
      forall e :: e in lines(j) ==> e.AttackFailed? && e.attack == names[j]
  }

  /** The attacks of any catalog print their failure lines that way. */
  lemma FailuresBlame(lib: Pil, draws: Draws, catalog: seq<Attack>, n: string)
    ensures Blames(FailuresOf(lib, draws, catalog, n), EffectsBy(lib, draws, catalog), Names(catalog), n)
  {
    forall j | 0 <= j < |catalog|
      ensures var f := FailuresOf(lib, draws, catalog, n)(j);
        |f| <= 1 && (f == [] <==> EffectsBy(lib, draws, catalog)(j, n).Written?) &&
        forall e :: e in f ==> e.AttackFailed? && e.attack == Names(catalog)[j]
    {
      assert FailuresOf(lib, draws, catalog, n)(j) == Failure(lib, draws, catalog[j], n);
      assert EffectsBy(lib, draws, catalog)(j, n) == Effect(lib, draws, catalog[j], n);
    }
  }

  /** The attack names on the failure lines of a log, in order. */
  function Blamed(log: seq<Event>): seq<string>
  {
    if log == [] then []
    else if log[|log| - 1].AttackFailed? then Blamed(log[..|log| - 1]) + [log[|log| - 1].attack]
    else Blamed(log[..|log| - 1])
  }

  lemma {:induction false} BlamedConcat(log: seq<Event>, more: seq<Event>)
    ensures Blamed(log + more) == Blamed(log) + Blamed(more)
    decreases |more|
  {
    if more != [] {
      var init := more[..|more| - 1];
      assert (log + more)[..|log + more| - 1] == log + init;
      assert (log + more)[|log + more| - 1] == more[|more| - 1];
      BlamedConcat(log, init);
    } else {
      assert log + more == log;
    }
  }

  /**
   * With distinct names, an entry is named among the first j failed ones exactly when it is
   * one of them and its result was not saved; failed names and saved results add up to j.
   */
  lemma {:induction false} FailedNamesMeaning(names: seq<string>, effects: Batch.Effects, n: string, j: nat)
    requires j <= |names| && Batch.Distinct(names)
    ensures |FailedNames(names, effects, n, j)| + Batch.ImageSuccesses(effects, n, j) == j
    ensures forall k :: 0 <= k < |names| ==>
      (names[k] in FailedNames(names, effects, n, j) <==> k < j && !effects(k, n).Written?)
  {
    if j > 0 {
      FailedNamesMeaning(names, effects, n, j - 1);
      forall k | 0 <= k < |names|
        ensures names[k] in FailedNames(names, effects, n, j) <==> k < j && !effects(k, n).Written?
      {
        if k != j - 1 {
          assert names[k] != names[j - 1];
        }
      }
    }
  }

  /** The closing summary: images, attacks per image, and "total generated". */
  datatype Summary = Summary(processed: nat, perImage: nat, generated: nat)

  /**
   * The body of the attack loop for one image (apply_attacks.py:103-108): apply the attack to a copy of
   * the normalised image and save the result as output/<attack>/<image name>; on an exception,
   * print it. A success prints nothing.
   */
  method ProcessAttack(lib: Pil, draws: Draws, catalog: seq<Attack>, fs: FileSystem, n: string, img: Image, k: nat)
    returns (after: FileSystem, failure: seq<Event>)
    requires k < |catalog| && OpenAsRgb(lib, n) == Ok(img)
    requires catalog[k].name in fs.dirs
    ensures after.dirs == fs.dirs
    ensures after.files == Put(fs.files, (catalog[k].name, n), EffectsBy(lib, draws, catalog)(k, n))
    ensures failure == [] <==> EffectsBy(lib, draws, catalog)(k, n).Written?
    ensures |failure| <= 1 && forall e :: e in failure ==> e.AttackFailed? && e.attack == catalog[k].name
    ensures failure == Failure(lib, draws, catalog[k], n)
  {
    var a := catalog[k];
    var r := Apply(lib, a.step, img, draws(a.name, n, 0));
    assert r == Outcome(lib, draws, a, n);
    after := fs;
    if r.Err? {
      failure := [AttackFailed(a.name, r.message)];
    } else {
      var saving := Save(lib, fs, a.name, n, r.value, DefaultQuality);
      after := saving.after;
      if saving.error.Some? {
        failure := [AttackFailed(a.name, saving.error.value)];
      } else {
        failure := [];
      }
    }
  }

  /** The failure line of one more attack, if any, keeps failures and successes adding up to the attacks run. */
  lemma FailureStep(effects: Batch.Effects, n: string, k: nat, failures: seq<Event>, failure: seq<Event>)
    requires forall i :: 0 <= i < |failures| ==> failures[i].AttackFailed?
    requires |failures| + Batch.ImageSuccesses(effects, n, k) == k
    requires failure == [] <==> effects(k, n).Written?
    requires |failure| <= 1 && forall e :: e in failure ==> e.AttackFailed?
    ensures forall i :: 0 <= i < |failures + failure| ==> (failures + failure)[i].AttackFailed?
    ensures |failures + failure| + Batch.ImageSuccesses(effects, n, k + 1) == k + 1
  {
    if failure != [] {
      assert failure[0] in failure;
    }
  }

  /** One more entry's failure line, if any, names it exactly when its result was not saved. */
  lemma BlameStep(names: seq<string>, effects: Batch.Effects, n: string, k: nat, failures: seq<Event>, failure: seq<Event>)
    requires k < |names|
    requires Blamed(failures) == FailedNames(names, effects, n, k)
    requires |failure| <= 1 && (failure == [] <==> effects(k, n).Written?)
    requires forall e :: e in failure ==> e.AttackFailed? && e.attack == names[k]
    ensures Blamed(failures + failure) == FailedNames(names, effects, n, k + 1)
  {
    BlamedConcat(failures, failure);
    if failure != [] {
      assert failure == [failure[0]] && failure[0] in failure;
      assert failure[..0] == [];
    }
  }

  /**
   * The failure lines of the first k entries of an image are failure lines, and add up to k
   * with the entries whose result was saved.
   */
  lemma {:induction false} ImageFailuresCount(lines: nat -> seq<Event>, effects: Batch.Effects, names: seq<string>, n: string, k: nat)
    requires k <= |names| && Blames(lines, effects, names, n)
    ensures var f := ImageFailures(lines, k);
      (forall i :: 0 <= i < |f| ==> f[i].AttackFailed?) &&
      |f| + Batch.ImageSuccesses(effects, n, k) == k
  {
    if k > 0 {
      ImageFailuresCount(lines, effects, names, n, k - 1);
      FailureStep(effects, n, k - 1, ImageFailures(lines, k - 1), lines(k - 1));
    }
  }

  /** The failure lines of the first k entries of an image name, in catalog order, those whose result was not saved. */
  lemma {:induction false} ImageFailuresNames(lines: nat -> seq<Event>, effects: Batch.Effects, names: seq<string>, n: string, k: nat)
    requires k <= |names| && Blames(lines, effects, names, n)
    ensures Blamed(ImageFailures(lines, k)) == FailedNames(names, effects, n, k)
  {
    if k > 0 {
      ImageFailuresNames(lines, effects, names, n, k - 1);
      BlameStep(names, effects, n, k - 1, ImageFailures(lines, k - 1), lines(k - 1));
    }
  }

  /**
   * What the log of one image says: the one error of the open, or one failure line for each
   * attack whose result was not saved, named in catalog order, then the tally of all attacks.
   */
  lemma ImageLogMeaning(lib: Pil, draws: Draws, catalog: seq<Attack>, n: string)
    ensures var events := ImageLog(lib, draws, catalog, n);
      TalliesReport(events, |catalog|) &&
      (OpenAsRgb(lib, n).Err? ==> events == [ImageFailed(n, OpenAsRgb(lib, n).message)]) &&
      (OpenAsRgb(lib, n).Ok? ==>
        |events| >= 1 && events[|events| - 1] == ImageDone(|catalog|) &&
        (forall i :: 0 <= i < |events| - 1 ==> events[i].AttackFailed?) &&
        |events| - 1 + Batch.ImageSuccesses(EffectsBy(lib, draws, catalog), n, |catalog|) == |catalog| &&
        Blamed(events) == FailedNames(Names(catalog), EffectsBy(lib, draws, catalog), n, |catalog|))
  {
    if OpenAsRgb(lib, n).Ok? {
      var effects := EffectsBy(lib, draws, catalog);
      var failures := ImageFailures(FailuresOf(lib, draws, catalog, n), |catalog|);
      FailuresBlame(lib, draws, catalog, n);
      ImageFailuresCount(FailuresOf(lib, draws, catalog, n), effects, Names(catalog), n, |catalog|);
      ImageFailuresNames(FailuresOf(lib, draws, catalog, n), effects, Names(catalog), n, |catalog|);
      TallyLine(failures, |catalog|, Batch.ImageSuccesses(effects, n, |catalog|));
      BlamedConcat(failures, [ImageDone(|catalog|)]);
      assert [ImageDone(|catalog|)][..0] == [];
    }
  }

  /**
   * The body of the image loop (apply_attacks.py:91-113): open and normalise the image once, run every
   * attack on its own copy, then print that all of them were applied, whatever failed. An
   * exception while opening or converting skips the image.
   */
  method ProcessImage(lib: Pil, draws: Draws, catalog: seq<Attack>, fs: FileSystem, n: string)
    returns (after: FileSystem, events: seq<Event>)
    requires forall k :: 0 <= k < |catalog| ==> catalog[k].name in fs.dirs
    ensures after.dirs == fs.dirs
    ensures after.files == Batch.ImageTree(fs.files, EffectsBy(lib, draws, catalog), Names(catalog), n, |catalog|)
    ensures OpenAsRgb(lib, n).Err? ==> events == [ImageFailed(n, OpenAsRgb(lib, n).message)]
    ensures OpenAsRgb(lib, n).Ok? ==>
      |events| >= 1 && events[|events| - 1] == ImageDone(|catalog|) &&
      (forall i :: 0 <= i < |events| - 1 ==> events[i].AttackFailed?) &&
      |events| - 1 + Batch.ImageSuccesses(EffectsBy(lib, draws, catalog), n, |catalog|) == |catalog|
    ensures TalliesReport(events, |catalog|)
    ensures events == ImageLog(lib, draws, catalog, n)
    ensures OpenAsRgb(lib, n).Ok? ==>
      Blamed(events) == FailedNames(Names(catalog), EffectsBy(lib, draws, catalog), n, |catalog|)
  {
    ghost var effects := EffectsBy(lib, draws, catalog);
    ghost var names := Names(catalog);
    after := fs;
    var decoded := OpenAsRgb(lib, n);
    if decoded.Err? {
      Batch.NothingWritten(fs.files, effects, names, n, |catalog|);
      events := [ImageFailed(n, decoded.message)];
      ImageLogMeaning(lib, draws, catalog, n);
      return;
    }
    var img := decoded.value;
    var failures: seq<Event> := [];
    for k := 0 to |catalog|
      invariant after.dirs == fs.dirs
      invariant after.files == Batch.ImageTree(fs.files, effects, names, n, k)
      invariant failures == ImageFailures(FailuresOf(lib, draws, catalog, n), k)
    {
      var failure;
      after, failure := ProcessAttack(lib, draws, catalog, after, n, img, k);
      assert names[k] == catalog[k].name;
      assert FailuresOf(lib, draws, catalog, n)(k) == failure;
      failures := failures + failure;
    }
    events := failures + [ImageDone(|catalog|)];
    ImageLogMeaning(lib, draws, catalog, n);
  }

  /** The failure lines of an image followed by its tally line, which reports every attack. */
  lemma TallyLine(failures: seq<Event>, count: nat, successes: nat)
    requires forall i :: 0 <= i < |failures| ==> failures[i].AttackFailed?
    requires |failures| + successes == count
    ensures var events := failures + [ImageDone(count)];
      events[|events| - 1] == ImageDone(count) &&
      (forall i :: 0 <= i < |events| - 1 ==> events[i].AttackFailed?) &&
      |events| - 1 + successes == count &&
      TalliesReport(events, count)
  {
    var events := failures + [ImageDone(count)];
    forall e | e in events && e.ImageDone?
      ensures e.applied == count
    {
      var i :| 0 <= i < |events| && events[i] == e;
    }
  }

  /** Every per-image tally line reports `count` attacks. */
  ghost predicate TalliesReport(log: seq<Event>, count: nat)
  {
    forall e :: e in log && e.ImageDone? ==> e.applied == count
  }

  lemma TalliesConcat(log: seq<Event>, more: seq<Event>, count: nat)
    requires TalliesReport(log, count) && TalliesReport(more, count)
    ensures TalliesReport(log + more, count)
  {
  }

  /**
   * The two loops of process_attacks over a given catalog: create one directory per attack,
   * then process every source image in turn.
   */
  method RunBatch(lib: Pil, draws: Draws, catalog: seq<Attack>, sources: seq<string>, fs0: FileSystem)
    returns (fs: FileSystem, log: seq<Event>)
    ensures fs.dirs == fs0.dirs + set d | d in Names(catalog)
    ensures fs.files == Batch.Tree(fs0.files, EffectsBy(lib, draws, catalog), Names(catalog), sources, |sources|)
    ensures log == Batch.Joined(LogOf(lib, draws, catalog), sources, |sources|)
    ensures TalliesReport(log, |catalog|)
  {
    ghost var effects := EffectsBy(lib, draws, catalog);
    var names := Names(catalog);
    fs := MakeDirs(fs0, names);
    ghost var dirs := fs.dirs;
    assert forall k :: 0 <= k < |catalog| ==> catalog[k].name in dirs by {
      forall k | 0 <= k < |catalog|
        ensures catalog[k].name in dirs
      {
        assert names[k] == catalog[k].name;
      }
    }
    log := [];
    for i := 0 to |sources|
      invariant fs.dirs == dirs
      invariant fs.files == Batch.Tree(fs0.files, effects, names, sources, i)
      invariant log == Batch.Joined(LogOf(lib, draws, catalog), sources, i)
      invariant TalliesReport(log, |catalog|)
    {
      var events;
      fs, events := ProcessImage(lib, draws, catalog, fs, sources[i]);
      TalliesConcat(log, events, |catalog|);
      log := log + events;
    }
  }

  /**
   * What a batch over a catalog with distinct names leaves behind, pair by pair: an attack whose
   * result was saved for an image holds it in output/<attack>/<image>; one whose encoder raised
   * leaves that file truncated, or absent if it was not there before; one that raised earlier
   * leaves the file as it was. Files of other names or directories are untouched.
   */
  lemma OutputFiles(lib: Pil, draws: Draws, catalog: seq<Attack>, sources: seq<string>, fs0: FileSystem, fs: FileSystem)
    requires Batch.Distinct(Names(catalog))
    requires fs.files == Batch.Tree(fs0.files, EffectsBy(lib, draws, catalog), Names(catalog), sources, |sources|)
    ensures forall a, k :: 0 <= a < |sources| && 0 <= k < |catalog| ==>
      var key := (catalog[k].name, sources[a]);
      match Effect(lib, draws, catalog[k], sources[a])
      case Written(out) => key in fs.files && fs.files[key] == Complete(out)
      case Abandoned => (key in fs.files <==> key in fs0.files) && (key in fs.files ==> fs.files[key] == Broken)
      case Untouched => SameAt(fs.files, fs0.files, key)
    ensures forall key: (string, string) :: key.0 !in Names(catalog) || key.1 !in sources ==>
      SameAt(fs.files, fs0.files, key)
  {
    var effects := EffectsBy(lib, draws, catalog);
    var names := Names(catalog);
    Batch.OutputTree(effects, names, sources, fs0.files, fs.files);
    forall a, k | 0 <= a < |sources| && 0 <= k < |catalog|
      ensures var key := (catalog[k].name, sources[a]);
        match Effect(lib, draws, catalog[k], sources[a])
        case Written(out) => key in fs.files && fs.files[key] == Complete(out)
        case Abandoned => (key in fs.files <==> key in fs0.files) && (key in fs.files ==> fs.files[key] == Broken)
        case Untouched => SameAt(fs.files, fs0.files, key)
    {
      assert names[k] == catalog[k].name;
      assert effects(k, sources[a]) == Effect(lib, draws, catalog[k], sources[a]);
    }
  }

  /**
   * The pairs that end with a saved file number at most images x catalog size, the figure the
   * summary prints as generated, and reach it exactly when every attack saved a file for every image.
   */
  lemma GeneratedCount(lib: Pil, draws: Draws, catalog: seq<Attack>, sources: seq<string>)
    ensures Batch.Successes(EffectsBy(lib, draws, catalog), |catalog|, sources, |sources|) <= |sources| * |catalog|
    ensures Batch.Successes(EffectsBy(lib, draws, catalog), |catalog|, sources, |sources|) == |sources| * |catalog| <==>
      forall a, k :: 0 <= a < |sources| && 0 <= k < |catalog| ==> Effect(lib, draws, catalog[k], sources[a]).Written?
  {
    var effects := EffectsBy(lib, draws, catalog);
    Batch.SuccessesBound(effects, |catalog|, sources, |sources|);
    forall a, k | 0 <= a < |sources| && 0 <= k < |catalog|
      ensures effects(k, sources[a]) == Effect(lib, draws, catalog[k], sources[a])
    {
    }
  }

  /**
   * process_attacks: the batch over the twelve attacks, and the summary, which reports
   * images x attacks as generated whatever failed.
   */
  method ProcessAttacks(lib: Pil, draws: Draws, sources: seq<string>, fs0: FileSystem)
    returns (fs: FileSystem, log: seq<Event>, summary: Summary)
    ensures fs.dirs == fs0.dirs + set d | d in Names(Catalog())
    ensures forall a, k :: 0 <= a < |sources| && 0 <= k < |Catalog()| ==>
      var key := (Catalog()[k].name, sources[a]);
      match Effect(lib, draws, Catalog()[k], sources[a])
      case Written(out) => key in fs.files && fs.files[key] == Complete(out)
      case Abandoned => (key in fs.files <==> key in fs0.files) && (key in fs.files ==> fs.files[key] == Broken)
      case Untouched => SameAt(fs.files, fs0.files, key)
    ensures forall key: (string, string) :: key.0 !in Names(Catalog()) || key.1 !in sources ==>
      SameAt(fs.files, fs0.files, key)
    ensures log == Batch.Joined(LogOf(lib, draws, Catalog()), sources, |sources|)
    ensures TalliesReport(log, 12)
    ensures summary == Summary(|sources|, 12, |sources| * 12)
  {
    var catalog := Catalog();
    fs, log := RunBatch(lib, draws, catalog, sources, fs0);
    OutputFiles(lib, draws, catalog, sources, fs0, fs);
    summary := Summary(|sources|, |catalog|, |sources| * |catalog|);
  }
}
