/**
 * apply_combined_attacks.py: ten named scenarios, each an ordered chain of labelled attack
 * steps, applied to every source image; each chain starts from the once-normalised RGB image,
 * its result is saved under output/<scenario>/<image name>, and a failing step or save voids
 * only that scenario's file for that image.
 */
module CombinedAttacks {
  import opened Outcomes
  import opened Raster
  import opened Transforms
  import opened Storage
  import Batch

  /** This script's crop_attack: crop the centre box, then Lanczos back to the original size. */
  function CropAttack(lib: Pil, img: Image, percent: nat): (r: Result<Image>)
    ensures Faithful(lib) && img.mode == RGB && r.Ok? ==> SameSize(r.value, img) && r.value.mode == RGB
    ensures r.Ok? ==> CropToBox(img, CenterBox(img.width, img.height, percent)).Ok?
  {
    var box := CenterBox(img.width, img.height, percent);
    CenterBoxInside(img.width, img.height, percent);
    match CropToBox(img, box)
    case Err(e) => Err(e)
    case Ok(cropped) => lib.resize(cropped, img.width, img.height)
  }

  /** One step of a chain, with this script's operators. */
  function Apply(lib: Pil, step: Step, img: Image, field: Field): (r: Result<Image>)
    ensures Faithful(lib) && img.mode == RGB && r.Ok? ==> SameSize(r.value, img) && r.value.mode == RGB
  {
    match step
    case Jpeg(quality) => JpegCompression(lib, img, quality)
    case Resize(percent) => ResizeAttack(lib, img, percent)
    case Crop(percent) => CropAttack(lib, img, percent)
    case Screenshot => ScreenshotSimulation(lib, img)
    case Noise(_) => Ok(GaussianNoise(img, field))
  }

  /** A step with the label printed in the scenario's trace. */
  datatype LabeledStep = LabeledStep(name: string, step: Step)

  datatype Scenario = Scenario(name: string, steps: seq<LabeledStep>)

  /**
   * The combined_attacks dictionary, in its insertion order: ten scenarios with distinct names
   * (the output directories), each a chain of two to five steps.
   */
  function Catalog(): (c: seq<Scenario>)
    ensures |c| == 10 && |Names(c)| == 10 && Batch.Distinct(Names(c))
    ensures forall k :: 0 <= k < |c| ==> 2 <= |c[k].steps| <= 5
  {
    [ Scenario("social_light", [LabeledStep("JPEG 75", Jpeg(75)), LabeledStep("Screenshot", Screenshot)]),
      Scenario("social_heavy", [LabeledStep("JPEG 50", Jpeg(50)), LabeledStep("Resize 75%", Resize(75)),
                                LabeledStep("JPEG 50", Jpeg(50))]),
      Scenario("screenshot_crop", [LabeledStep("Screenshot", Screenshot), LabeledStep("Crop 10%", Crop(10)),
                                   LabeledStep("JPEG 75", Jpeg(75))]),
      Scenario("screenshot_heavy", [LabeledStep("Screenshot", Screenshot), LabeledStep("Crop 25%", Crop(25)),
                                    LabeledStep("JPEG 50", Jpeg(50))]),
      Scenario("intentional_light", [LabeledStep("Resize 75%", Resize(75)), LabeledStep("Noise", Noise(5)),
                                     LabeledStep("JPEG 50", Jpeg(50))]),
      Scenario("intentional_heavy", [LabeledStep("Resize 50%", Resize(50)), LabeledStep("Crop 10%", Crop(10)),
                                     LabeledStep("Noise", Noise(10)), LabeledStep("JPEG 30", Jpeg(30))]),
      Scenario("viral_repost", [LabeledStep("JPEG 75", Jpeg(75)), LabeledStep("Screenshot", Screenshot),
                                LabeledStep("Crop 5%", Crop(5)), LabeledStep("JPEG 65", Jpeg(65)),
                                LabeledStep("JPEG 50", Jpeg(50))]),
      Scenario("thumbnail", [LabeledStep("Resize 25%", Resize(25)), LabeledStep("JPEG 75", Jpeg(75))]),
      Scenario("crop_compress_light", [LabeledStep("Crop 15%", Crop(15)), LabeledStep("JPEG 60", Jpeg(60))]),
      Scenario("crop_compress_heavy", [LabeledStep("Crop 30%", Crop(30)), LabeledStep("JPEG 40", Jpeg(40))]) ]
  }

  /** The scenario names of a catalog: its output subdirectories. */
  function Names(catalog: seq<Scenario>): seq<string>
  {
    seq(|catalog|, k requires 0 <= k < |catalog| => catalog[k].name)
  }

  function Labels(steps: seq<LabeledStep>): seq<string>
  {
    seq(|steps|, i requires 0 <= i < |steps| => steps[i].name)
  }

  /** Every crop in the catalog removes less than the whole image and every resize shrinks. */
  lemma CatalogParameters()
    ensures forall k, i :: 0 <= k < |Catalog()| && 0 <= i < |Catalog()[k].steps| ==>
      match Catalog()[k].steps[i].step
      case Crop(p) => 0 < p < 100
      case Resize(p) => 0 < p < 100
      case Jpeg(q) => 1 <= q <= 95
      case _ => true
  {
  }

  /**
   * The chain from position i on, as a left fold: each step consumes the previous step's
   * output, and the first exception ends the chain.
   */
  function Run(lib: Pil, steps: seq<LabeledStep>, i: nat, img: Image, noise: nat -> Field): (r: Result<Image>)
    requires i <= |steps|
    ensures Faithful(lib) && img.mode == RGB && r.Ok? ==> SameSize(r.value, img) && r.value.mode == RGB
    decreases |steps| - i
  {
    if i == |steps| then Ok(img)
    else
      match Apply(lib, steps[i].step, img, noise(i))
      case Err(e) => Err(e)
      case Ok(next) => Run(lib, steps, i + 1, next, noise)
  }

  /** Running a chain is running a prefix of it and feeding its result to the rest. */
  lemma {:induction false} RunSplit(lib: Pil, steps: seq<LabeledStep>, i: nat, k: nat, img: Image, noise: nat -> Field)
    requires i <= k <= |steps|
    ensures Run(lib, steps, i, img, noise) ==
      match Run(lib, steps[..k], i, img, noise)
      case Err(e) => Err(e)
      case Ok(mid) => Run(lib, steps, k, mid, noise)
    decreases k - i
  {
    if i < k {
      assert steps[..k][i] == steps[i];
      match Apply(lib, steps[i].step, img, noise(i))
      case Err(e) =>
      case Ok(next) => RunSplit(lib, steps, i + 1, k, next, noise);
    }
  }

  /**
   * One scenario (apply_combined_attacks.py:152-157): start from the copy of the normalised image, apply the
   * steps in order, each to the previous result, appending each label once its step is done.
   * The first exception leaves the loop.
   */
  method RunScenario(lib: Pil, steps: seq<LabeledStep>, src: Image, noise: nat -> Field)
    returns (r: Result<Image>, trace: seq<string>)
    ensures r == Run(lib, steps, 0, src, noise)
    ensures |trace| <= |steps| && trace == Labels(steps[..|trace|])
    ensures r.Ok? ==> trace == Labels(steps)
  {
    var img := src;
    trace := [];
    var i := 0;
    while i < |steps|
      invariant 0 <= i <= |steps|
      invariant Run(lib, steps, 0, src, noise) == Run(lib, steps, i, img, noise)
      invariant trace == Labels(steps[..i])
    {
      var next := Apply(lib, steps[i].step, img, noise(i));
      if next.Err? {
        return next, trace;
      }
      img := next.value;
      trace := trace + [steps[i].name];
      i := i + 1;
    }
    assert steps[..i] == steps;
    r := Ok(img);
  }

  /** What scenario s yields for the source file n: its chain on the normalised image. */
  function Outcome(lib: Pil, draws: Draws, s: Scenario, n: string): (r: Result<Image>)
    ensures Faithful(lib) && r.Ok? ==>
      r.value.mode == RGB && OpenAsRgb(lib, n).Ok? && SameSize(r.value, OpenAsRgb(lib, n).value)
    ensures OpenAsRgb(lib, n).Err? ==> r.Err?
  {
    match OpenAsRgb(lib, n)
    case Err(e) => Err(e)
    case Ok(img) => Run(lib, s.steps, 0, img, NoiseFor(draws, s.name, n))
  }

  /**
   * What scenario s does to output/<scenario>/<n>, its directory existing: nothing when the
   * image cannot be opened or a step raises; otherwise what saving the result with quality=95
   * does to it.
   */
  function Effect(lib: Pil, draws: Draws, s: Scenario, n: string): (w: Write)
    ensures w.Untouched? <==> Outcome(lib, draws, s, n).Err?
    ensures w.Written? <==> Outcome(lib, draws, s, n).Ok? && lib.canSave(Outcome(lib, draws, s, n).value, n, WithQuality(95))
    ensures w.Written? ==> w.image == Outcome(lib, draws, s, n).value
    ensures Faithful(lib) && w.Written? ==>
      w.image.mode == RGB && OpenAsRgb(lib, n).Ok? && SameSize(w.image, OpenAsRgb(lib, n).value)
  {
    var o := Outcome(lib, draws, s, n);
    if o.Err? then Untouched else SaveEffect(lib, {s.name}, s.name, n, o.value, WithQuality(95))
  }

  function EffectsBy(lib: Pil, draws: Draws, catalog: seq<Scenario>): Batch.Effects
  {
    (k: nat, n: string) => if k < |catalog| then Effect(lib, draws, catalog[k], n) else Untouched
  }

  /** The lines the run prints about each (image, scenario) pair and each undecodable image. */
  datatype Event =
    | ScenarioDone(scenario: string, trace: seq<string>)
    | ScenarioFailed(scenario: string, message: string)
    | ImageFailed(image: string, message: string)

  /**
   * The line scenario s prints for the image n: its trace when the result was saved, and
   * otherwise the message of the step or of the save that raised.
   */
  function Line(lib: Pil, draws: Draws, s: Scenario, n: string): (e: Event)
    ensures !e.ImageFailed? && e.scenario == s.name
    ensures e.ScenarioDone? <==> Effect(lib, draws, s, n).Written?
    ensures e.ScenarioDone? ==> e.trace == Labels(s.steps)
  {
    var o := Outcome(lib, draws, s, n);
    if o.Err? then ScenarioFailed(s.name, o.message)
    else if lib.canSave(o.value, n, WithQuality(95)) then ScenarioDone(s.name, Labels(s.steps))
    else ScenarioFailed(s.name, EncoderError)
  }

  /** The lines of the first k scenarios for the image n, in catalog order. */
  function ImageLines(lib: Pil, draws: Draws, catalog: seq<Scenario>, n: string, k: nat): seq<Event>
    requires k <= |catalog|
  {
    if k == 0 then [] else ImageLines(lib, draws, catalog, n, k - 1) + [Line(lib, draws, catalog[k - 1], n)]
  }

  /** Everything printed for the image n: one line per scenario, or the one error of the open. */
  function ImageLog(lib: Pil, draws: Draws, catalog: seq<Scenario>, n: string): seq<Event>
  {
    match OpenAsRgb(lib, n)
    case Err(message) => [ImageFailed(n, message)]
    case Ok(_) => ImageLines(lib, draws, catalog, n, |catalog|)
  }

  function LogOf(lib: Pil, draws: Draws, catalog: seq<Scenario>): string -> seq<Event>
  {
    n => ImageLog(lib, draws, catalog, n)
  }

  /** Line k of an image is scenario k's: a success with its trace exactly when its result was saved. */
  lemma {:induction false} ImageLinesMeaning(lib: Pil, draws: Draws, catalog: seq<Scenario>, n: string, k: nat)
    requires k <= |catalog|
    ensures var lines := ImageLines(lib, draws, catalog, n, k);
      |lines| == k &&
      forall j :: 0 <= j < k ==>
        !lines[j].ImageFailed? && lines[j].scenario == catalog[j].name &&
        (lines[j].ScenarioDone? <==> Effect(lib, draws, catalog[j], n).Written?) &&
        (lines[j].ScenarioDone? ==> lines[j].trace == Labels(catalog[j].steps))
  {
    if k > 0 {
      ImageLinesMeaning(lib, draws, catalog, n, k - 1);
      var lines := ImageLines(lib, draws, catalog, n, k);
      assert lines[k - 1] == Line(lib, draws, catalog[k - 1], n);
    }
  }

  /** The closing summary: images, scenarios, and "total generated". */
  datatype Summary = Summary(processed: nat, scenarios: nat, generated: nat)

  /** How many success lines a log holds. */
  function Done(log: seq<Event>): nat
  {
    if log == [] then 0
    else Done(log[..|log| - 1]) + if log[|log| - 1].ScenarioDone? then 1 else 0
  }

  /** Success lines add up over consecutive parts of the log. */
  lemma {:induction false} DoneConcat(log: seq<Event>, more: seq<Event>)
    ensures Done(log + more) == Done(log) + Done(more)
    decreases |more|
  {
    if more != [] {
      var init := more[..|more| - 1];
      var last := if more[|more| - 1].ScenarioDone? then 1 else 0;
      assert (log + more)[..|log + more| - 1] == log + init;
      assert (log + more)[|log + more| - 1] == more[|more| - 1];
      assert Done(log + more) == Done(log + init) + last;
      assert Done(more) == Done(init) + last;
      DoneConcat(log, init);
    } else {
      assert log + more == log;
    }
  }

  /** Every success line names a scenario of the catalog and traces its labels in declared order. */
  ghost predicate TracesFaithful(catalog: seq<Scenario>, log: seq<Event>)
  {
    forall e :: e in log && e.ScenarioDone? ==>
      exists k :: 0 <= k < |catalog| && e.scenario == catalog[k].name && e.trace == Labels(catalog[k].steps)
  }

  lemma TracesConcat(catalog: seq<Scenario>, log: seq<Event>, more: seq<Event>)
    requires TracesFaithful(catalog, log) && TracesFaithful(catalog, more)
    ensures TracesFaithful(catalog, log + more)
  {
    forall e | e in log + more && e.ScenarioDone?
      ensures exists k :: 0 <= k < |catalog| && e.scenario == catalog[k].name && e.trace == Labels(catalog[k].steps)
    {
      if e in log {
      } else {
        assert e in more;
      }
    }
  }

  /**
   * The body of the scenario loop for one image (apply_combined_attacks.py:150-166): run the chain on the
   * normalised image, save the result as output/<scenario>/<image name> with quality=95, and
   * print either the trace or the exception.
   */
  method ProcessScenario(lib: Pil, draws: Draws, catalog: seq<Scenario>, fs: FileSystem, n: string, img: Image, k: nat)
    returns (after: FileSystem, e: Event)
    requires k < |catalog| && OpenAsRgb(lib, n) == Ok(img)
    requires catalog[k].name in fs.dirs
    ensures after.dirs == fs.dirs
    ensures after.files == Put(fs.files, (catalog[k].name, n), EffectsBy(lib, draws, catalog)(k, n))
    ensures e.ScenarioDone? <==> EffectsBy(lib, draws, catalog)(k, n).Written?
    ensures e.ScenarioDone? ==> e.scenario == catalog[k].name && e.trace == Labels(catalog[k].steps)
    ensures !e.ImageFailed? && e.scenario == catalog[k].name
    ensures e == Line(lib, draws, catalog[k], n)
  {
    var s := catalog[k];
    var r, trace := RunScenario(lib, s.steps, img, NoiseFor(draws, s.name, n));
    assert r == Outcome(lib, draws, s, n);
    after := fs;
    if r.Err? {
      e := ScenarioFailed(s.name, r.message);
    } else {
      var saving := Save(lib, fs, s.name, n, r.value, WithQuality(95));
      after := saving.after;
      if saving.error.Some? {
        e := ScenarioFailed(s.name, saving.error.value);
      } else {
        e := ScenarioDone(s.name, trace);
      }
    }
  }

  /**
   * The body of the image loop (apply_combined_attacks.py:139-171): open and normalise the image once, then run
   * every scenario on it; an exception while opening or converting skips the whole image.
   */
  method ProcessImage(lib: Pil, draws: Draws, catalog: seq<Scenario>, fs: FileSystem, n: string)
    returns (after: FileSystem, events: seq<Event>)
    requires forall k :: 0 <= k < |catalog| ==> catalog[k].name in fs.dirs
    ensures after.dirs == fs.dirs
    ensures after.files == Batch.ImageTree(fs.files, EffectsBy(lib, draws, catalog), Names(catalog), n, |catalog|)
    ensures events == ImageLog(lib, draws, catalog, n)
    ensures OpenAsRgb(lib, n).Err? ==> events == [ImageFailed(n, OpenAsRgb(lib, n).message)]
    ensures OpenAsRgb(lib, n).Ok? ==>
      |events| == |catalog| &&
      forall k :: 0 <= k < |catalog| ==>
        !events[k].ImageFailed? && events[k].scenario == catalog[k].name &&
        (events[k].ScenarioDone? <==> Effect(lib, draws, catalog[k], n).Written?) &&
        (events[k].ScenarioDone? ==> events[k].trace == Labels(catalog[k].steps))
    ensures Done(events) == Batch.ImageSuccesses(EffectsBy(lib, draws, catalog), n, |catalog|)
    ensures TracesFaithful(catalog, events)
  {
    ghost var effects := EffectsBy(lib, draws, catalog);
    ghost var names := Names(catalog);
    after := fs;
    var decoded := OpenAsRgb(lib, n);
    if decoded.Err? {
      Batch.NothingWritten(fs.files, effects, names, n, |catalog|);
      events := [ImageFailed(n, decoded.message)];
      assert events[..0] == [];
      return;
    }
    var img := decoded.value;
    events := [];
    for k := 0 to |catalog|
      invariant after.dirs == fs.dirs
      invariant after.files == Batch.ImageTree(fs.files, effects, names, n, k)
      invariant events == ImageLines(lib, draws, catalog, n, k)
      invariant Done(events) == Batch.ImageSuccesses(effects, n, k)
      invariant TracesFaithful(catalog, events)
    {
      var e;
      after, e := ProcessScenario(lib, draws, catalog, after, n, img, k);
      assert names[k] == catalog[k].name;
      EventStep(catalog, effects, n, k, events, e);
      events := events + [e];
    }
    ImageLinesMeaning(lib, draws, catalog, n, |catalog|);
  }

  /** The line of one more scenario extends the image's count of successes and keeps every trace faithful. */
  lemma EventStep(catalog: seq<Scenario>, effects: Batch.Effects, n: string, k: nat, events: seq<Event>, e: Event)
    requires k < |catalog|
    requires Done(events) == Batch.ImageSuccesses(effects, n, k) && TracesFaithful(catalog, events)
    requires e.ScenarioDone? <==> effects(k, n).Written?
    requires e.ScenarioDone? ==> e.scenario == catalog[k].name && e.trace == Labels(catalog[k].steps)
    ensures Done(events + [e]) == Batch.ImageSuccesses(effects, n, k + 1)
    ensures TracesFaithful(catalog, events + [e])
  {
    DoneConcat(events, [e]);
    assert [e][..0] == [];
    TracesConcat(catalog, events, [e]);
  }

  /** The lines of one more image extend the count of successes and keep every trace faithful. */
  lemma LogStep(catalog: seq<Scenario>, effects: Batch.Effects, sources: seq<string>, i: nat, log: seq<Event>, events: seq<Event>)
    requires i < |sources|
    requires Done(log) == Batch.Successes(effects, |catalog|, sources, i)
    requires Done(events) == Batch.ImageSuccesses(effects, sources[i], |catalog|)
    requires TracesFaithful(catalog, log) && TracesFaithful(catalog, events)
    ensures Done(log + events) == Batch.Successes(effects, |catalog|, sources, i + 1)
    ensures TracesFaithful(catalog, log + events)
  {
    DoneConcat(log, events);
    TracesConcat(catalog, log, events);
  }

  /**
   * The two loops of process_combined_attacks over a given catalog: create one directory per
   * scenario, then process every source image in turn.
   */
  method RunBatch(lib: Pil, draws: Draws, catalog: seq<Scenario>, sources: seq<string>, fs0: FileSystem)
    returns (fs: FileSystem, log: seq<Event>)
    ensures fs.dirs == fs0.dirs + set d | d in Names(catalog)
    ensures fs.files == Batch.Tree(fs0.files, EffectsBy(lib, draws, catalog), Names(catalog), sources, |sources|)
    ensures log == Batch.Joined(LogOf(lib, draws, catalog), sources, |sources|)
    ensures Done(log) == Batch.Successes(EffectsBy(lib, draws, catalog), |catalog|, sources, |sources|)
    ensures TracesFaithful(catalog, log)
  {
    ghost var effects := EffectsBy(lib, draws, catalog);
    var names := Names(catalog);
    fs := MakeDirs(fs0, names);
    ghost var dirs := fs.dirs;
    assert forall k :: 0 <= k < |catalog| ==> catalog[k].name in dirs by {
      forall k | 0 <= k < |catalog|
        ensures catalog[k].name in dirs
      {
        assert names[k] == catalog[k].name;
      }
    }
    log := [];
    for i := 0 to |sources|
      invariant fs.dirs == dirs
      invariant fs.files == Batch.Tree(fs0.files, effects, names, sources, i)
      invariant log == Batch.Joined(LogOf(lib, draws, catalog), sources, i)
      invariant Done(log) == Batch.Successes(effects, |catalog|, sources, i)
      invariant TracesFaithful(catalog, log)
    {
      var events;
      fs, events := ProcessImage(lib, draws, catalog, fs, sources[i]);
      LogStep(catalog, effects, sources, i, log, events);
      log := log + events;
    }
  }

  /**
   * What a batch over a catalog with distinct names leaves behind, pair by pair: a scenario
   * whose result was saved for an image holds it in output/<scenario>/<image>; one whose encoder
   * raised leaves that file truncated, or absent if it was not there before; one that raised
   * earlier leaves the file as it was. Files of other names or directories are untouched.
   */
  lemma OutputFiles(lib: Pil, draws: Draws, catalog: seq<Scenario>, sources: seq<string>, fs0: FileSystem, fs: FileSystem)
    requires Batch.Distinct(Names(catalog))
    requires fs.files == Batch.Tree(fs0.files, EffectsBy(lib, draws, catalog), Names(catalog), sources, |sources|)
    ensures forall a, k :: 0 <= a < |sources| && 0 <= k < |catalog| ==>
      var key := (catalog[k].name, sources[a]);
      match Effect(lib, draws, catalog[k], sources[a])
      case Written(out) => key in fs.files && fs.files[key] == Complete(out)
      case Abandoned => (key in fs.files <==> key in fs0.files) && (key in fs.files ==> fs.files[key] == Broken)
      case Untouched => SameAt(fs.files, fs0.files, key)
    ensures forall key: (string, string) :: key.0 !in Names(catalog) || key.1 !in sources ==>
      SameAt(fs.files, fs0.files, key)
  {
    var effects := EffectsBy(lib, draws, catalog);
    var names := Names(catalog);
    Batch.OutputTree(effects, names, sources, fs0.files, fs.files);
    forall a, k | 0 <= a < |sources| && 0 <= k < |catalog|
      ensures var key := (catalog[k].name, sources[a]);
        match Effect(lib, draws, catalog[k], sources[a])
        case Written(out) => key in fs.files && fs.files[key] == Complete(out)
        case Abandoned => (key in fs.files <==> key in fs0.files) && (key in fs.files ==> fs.files[key] == Broken)
        case Untouched => SameAt(fs.files, fs0.files, key)
    {
      assert names[k] == catalog[k].name;
      assert effects(k, sources[a]) == Effect(lib, draws, catalog[k], sources[a]);
    }
  }

  /**
   * The pairs that end with a saved file number at most images x catalog size, the figure the
   * summary prints as generated, and reach it exactly when every scenario saved a file for every image.
   */
  lemma GeneratedCount(lib: Pil, draws: Draws, catalog: seq<Scenario>, sources: seq<string>)
    ensures Batch.Successes(EffectsBy(lib, draws, catalog), |catalog|, sources, |sources|) <= |sources| * |catalog|
    ensures Batch.Successes(EffectsBy(lib, draws, catalog), |catalog|, sources, |sources|) == |sources| * |catalog| <==>
      forall a, k :: 0 <= a < |sources| && 0 <= k < |catalog| ==> Effect(lib, draws, catalog[k], sources[a]).Written?
  {
    var effects := EffectsBy(lib, draws, catalog);
    Batch.SuccessesBound(effects, |catalog|, sources, |sources|);
    forall a, k | 0 <= a < |sources| && 0 <= k < |catalog|
      ensures effects(k, sources[a]) == Effect(lib, draws, catalog[k], sources[a])
    {
    }
  }

  /**
   * process_combined_attacks: the batch over the ten scenarios, and the summary, which reports
   * images x scenarios as generated whatever failed.
   */
  method ProcessCombinedAttacks(lib: Pil, draws: Draws, sources: seq<string>, fs0: FileSystem)
    returns (fs: FileSystem, log: seq<Event>, summary: Summary)
    ensures fs.dirs == fs0.dirs + set d | d in Names(Catalog())
    ensures fs.files == Batch.Tree(fs0.files, EffectsBy(lib, draws, Catalog()), Names(Catalog()), sources, |sources|)
    ensures log == Batch.Joined(LogOf(lib, draws, Catalog()), sources, |sources|)
    ensures Done(log) == Batch.Successes(EffectsBy(lib, draws, Catalog()), |Catalog()|, sources, |sources|)
    ensures forall a, k :: 0 <= a < |sources| && 0 <= k < |Catalog()| ==>
      var key := (Catalog()[k].name, sources[a]);
      match Effect(lib, draws, Catalog()[k], sources[a])
      case Written(out) => key in fs.files && fs.files[key] == Complete(out)
      case Abandoned => (key in fs.files <==> key in fs0.files) && (key in fs.files ==> fs.files[key] == Broken)
      case Untouched => SameAt(fs.files, fs0.files, key)
    ensures forall key: (string, string) :: key.0 !in Names(Catalog()) || key.1 !in sources ==>
      SameAt(fs.files, fs0.files, key)
    ensures TracesFaithful(Catalog(), log)
    ensures summary == Summary(|sources|, 10, |sources| * 10)
    ensures Done(log) <= summary.generated
    ensures Done(log) == summary.generated <==>
      forall a, k :: 0 <= a < |sources| && 0 <= k < |Catalog()| ==> Effect(lib, draws, Catalog()[k], sources[a]).Written?
  {
    var catalog := Catalog();
    fs, log := RunBatch(lib, draws, catalog, sources, fs0);
    OutputFiles(lib, draws, catalog, sources, fs0, fs);
    GeneratedCount(lib, draws, catalog, sources);
    summary := Summary(|sources|, |catalog|, |sources| * |catalog|);
  }
}
