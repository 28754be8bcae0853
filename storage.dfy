/** The output directory tree the executors write into, as a value they pass along. */
module Storage {
  import opened Outcomes
  import opened Raster

  /**
   * What a file below the output root holds: a complete encoded image, or the remains of a
   * save whose encoder raised after the file had been opened for writing.
   */
  datatype Content = Complete(image: Image) | Broken

  /** The messages `save` raises with: the target's directory is missing; the encoder refused the image. */
  const MissingDirectory := "No such file or directory"
  const EncoderError := "cannot write image in this format"

  /**
   * The tree below the output root: the subdirectories that exist, and the files keyed by
   * (subdirectory, file name). The encoded bytes on disk are not modelled.
   */
  datatype FileSystem = FileSystem(dirs: set<string>, files: map<(string, string), Content>)

  /** Key `key` holds the same thing, or nothing, in both trees. */
  predicate SameAt(f: map<(string, string), Content>, g: map<(string, string), Content>, key: (string, string))
  {
    (key in f <==> key in g) && (key in f ==> f[key] == g[key])
  }

  /**
   * What one save does to its target file: nothing, when `open` raised before the file was
   * touched; the image, when the encoder finished; or an abandoned file, when the encoder raised
   * after the file had been opened with "w+b".
   */
  datatype Write = Untouched | Written(image: Image) | Abandoned

  /**
   * The target after a write. An abandoned save truncates a file that existed before, and a file
   * that the save itself created is removed again.
   */
  function Put(files: map<(string, string), Content>, key: (string, string), w: Write): (r: map<(string, string), Content>)
    ensures forall other :: other != key ==> SameAt(r, files, other)
    ensures w.Untouched? ==> r == files
    ensures w.Written? ==> key in r && r[key] == Complete(w.image)
    ensures w.Abandoned? ==> (key in r <==> key in files) && (key in r ==> r[key] == Broken)
  {
    match w
    case Untouched => files
    case Written(img) => files[key := Complete(img)]
    case Abandoned => if key in files then files[key := Broken] else files
  }

  /**
   * The loop `for name in catalog: (output_path / name).mkdir(exist_ok=True)`. Creating a
   * directory that exists is harmless, so the loop only adds the missing ones.
   */
  method MakeDirs(fs: FileSystem, names: seq<string>) returns (r: FileSystem)
    ensures r.dirs == fs.dirs + set d | d in names
    ensures r.files == fs.files
    ensures (forall d :: d in names ==> d in fs.dirs) ==> r == fs
  {
    r := fs;
    for k := 0 to |names|
      invariant r.dirs == fs.dirs + set i | 0 <= i < k :: names[i]
      invariant r.files == fs.files
    {
      r := r.(dirs := r.dirs + {names[k]});
    }
    assert (set i | 0 <= i < |names| :: names[i]) == set d | d in names;
  }

  /** The new tree of a save, and the message of the exception it raised, if any. */
  datatype Saving = Saving(after: FileSystem, error: Option<string>)

  /**
   * What image.save(output_root / dir / name) does to its target: opening the file raises when
   * the directory is missing; otherwise the file is opened, and the encoder that the file name
   * selects either writes the image or raises.
   */
  function SaveEffect(lib: Pil, dirs: set<string>, dir: string, name: string, img: Image, opts: SaveOptions): (w: Write)
    ensures w.Untouched? <==> dir !in dirs
    ensures w.Written? <==> dir in dirs && lib.canSave(img, name, opts)
    ensures w.Written? ==> w.image == img
  {
    if dir !in dirs then Untouched
    else if lib.canSave(img, name, opts) then Written(img)
    else Abandoned
  }

  /**
   * image.save(output_root / dir / name): raises when the directory is missing, leaving the
   * tree as it was, or when the encoder refuses the image, leaving the target truncated (or
   * removed, when the save created it); otherwise writes the image, replacing any earlier file.
   * No other file changes.
   */
  function Save(lib: Pil, fs: FileSystem, dir: string, name: string, img: Image, opts: SaveOptions): (r: Saving)
    ensures r.error.None? <==> dir in fs.dirs && lib.canSave(img, name, opts)
    ensures r.error.Some? ==> r.error.value == if dir in fs.dirs then EncoderError else MissingDirectory
    ensures r.after.dirs == fs.dirs
    ensures r.after.files == Put(fs.files, (dir, name), SaveEffect(lib, fs.dirs, dir, name, img, opts))
    ensures dir !in fs.dirs ==> r.after == fs
    ensures r.error.None? ==> (dir, name) in r.after.files && r.after.files[(dir, name)] == Complete(img)
    ensures dir in fs.dirs && r.error.Some? ==>
      ((dir, name) in r.after.files <==> (dir, name) in fs.files) &&
      ((dir, name) in r.after.files ==> r.after.files[(dir, name)] == Broken)
    ensures forall key :: key != (dir, name) ==> SameAt(r.after.files, fs.files, key)
  {
    var w := SaveEffect(lib, fs.dirs, dir, name, img, opts);
    var after := fs.(files := Put(fs.files, (dir, name), w));
    if dir !in fs.dirs then Saving(after, Some(MissingDirectory))
    else if !lib.canSave(img, name, opts) then Saving(after, Some(EncoderError))
    else Saving(after, None)
  }
}
