/**
 * What a batch run over images x catalog entries does to the output tree, stated once for
 * both executors: entry k of the catalog acts on the file (names[k], n) for the source image
 * named n, and on nothing else; what it does there depends only on the entry and the image.
 */
module Batch {
  import opened Raster
  import opened Storage

  /** For catalog entry k and source image n: what its run did to output/<entry>/<n>. */
  type Effects = (nat, string) -> Write

  predicate Distinct(names: seq<string>)
  {
    forall a, b :: 0 <= a < b < |names| ==> names[a] != names[b]
  }

  /** The files after the first j catalog entries have run on image n, in catalog order. */
  function ImageTree(files: map<(string, string), Content>, effects: Effects, names: seq<string>, n: string, j: nat): map<(string, string), Content>
    requires j <= |names|
  {
    if j == 0 then files
    else Put(ImageTree(files, effects, names, n, j - 1), (names[j - 1], n), effects(j - 1, n))
  }

  /** The files after the first i source images, in order. */
  function Tree(files: map<(string, string), Content>, effects: Effects, names: seq<string>, sources: seq<string>, i: nat): map<(string, string), Content>
    requires i <= |sources|
  {
    if i == 0 then files
    else ImageTree(Tree(files, effects, names, sources, i - 1), effects, names, sources[i - 1], |names|)
  }

  /** How many of the first j catalog entries wrote their file for image n. */
  function ImageSuccesses(effects: Effects, n: string, j: nat): nat
  {
    if j == 0 then 0
    else ImageSuccesses(effects, n, j - 1) + if effects(j - 1, n).Written? then 1 else 0
  }

  /** How many (image, entry) pairs wrote their file, over the first i images and m entries. */
  function Successes(effects: Effects, m: nat, sources: seq<string>, i: nat): nat
    requires i <= |sources|
  {
    if i == 0 then 0
    else Successes(effects, m, sources, i - 1) + ImageSuccesses(effects, sources[i - 1], m)
  }

  /** An image on which no entry touched its file changes nothing and counts no success. */
  lemma {:induction false} NothingWritten(files: map<(string, string), Content>, effects: Effects, names: seq<string>, n: string, j: nat)
    requires j <= |names|
    requires forall k :: 0 <= k < j ==> effects(k, n).Untouched?
    ensures ImageTree(files, effects, names, n, j) == files
    ensures ImageSuccesses(effects, n, j) == 0
  {
    if j > 0 {
      NothingWritten(files, effects, names, n, j - 1);
    }
  }

  /**
   * After the first j entries on image n, the file of entry k is what entry k's own write made
   * of it, if k < j, and untouched otherwise: with distinct names no other entry touches it.
   */
  lemma {:induction false} ImageTreeAt(files: map<(string, string), Content>, effects: Effects, names: seq<string>, n: string, j: nat, k: nat)
    requires j <= |names| && k < |names| && Distinct(names)
    ensures SameAt(ImageTree(files, effects, names, n, j),
                   if k < j then Put(files, (names[k], n), effects(k, n)) else files,
                   (names[k], n))
  {
    if j > 0 {
      ImageTreeAt(files, effects, names, n, j - 1, k);
      if k != j - 1 {
        assert names[k] != names[j - 1];
      }
    }
  }

  /** The entries' writes for image n touch no file of another image or of another directory. */
  lemma {:induction false} ImageTreeOther(files: map<(string, string), Content>, effects: Effects, names: seq<string>, n: string, j: nat, key: (string, string))
    requires j <= |names|
    requires key.1 != n || key.0 !in names
    ensures SameAt(ImageTree(files, effects, names, n, j), files, key)
  {
    if j > 0 {
      ImageTreeOther(files, effects, names, n, j - 1, key);
      assert names[j - 1] in names;
    }
  }

  /**
   * After the first i images, the file of entry k for image a < i is what that pair's write made
   * of it; a repeated image name repeats the same write, which changes nothing further.
   */
  lemma {:induction false} TreeAt(files: map<(string, string), Content>, effects: Effects, names: seq<string>, sources: seq<string>, i: nat, a: nat, k: nat)
    requires a < i <= |sources| && k < |names| && Distinct(names)
    ensures SameAt(Tree(files, effects, names, sources, i),
                   Put(files, (names[k], sources[a]), effects(k, sources[a])),
                   (names[k], sources[a]))
  {
    var n := sources[i - 1];
    var key := (names[k], sources[a]);
    var prev := Tree(files, effects, names, sources, i - 1);
    if sources[a] == n {
      ImageTreeAt(prev, effects, names, n, |names|, k);
      if exists b :: 0 <= b < i - 1 && sources[b] == n {
        var b :| 0 <= b < i - 1 && sources[b] == n;
        TreeAt(files, effects, names, sources, i - 1, b, k);
      } else {
        assert key.1 !in sources[..i - 1];
        TreeOthers(files, effects, names, sources, i - 1, key);
      }
    } else {
      ImageTreeOther(prev, effects, names, n, |names|, key);
      TreeAt(files, effects, names, sources, i - 1, a, k);
    }
  }

  /** Files outside the catalog's directories, or named after no image processed yet, are untouched. */
  lemma {:induction false} TreeOthers(files: map<(string, string), Content>, effects: Effects, names: seq<string>, sources: seq<string>, i: nat, key: (string, string))
    requires i <= |sources|
    requires key.0 !in names || key.1 !in sources[..i]
    ensures SameAt(Tree(files, effects, names, sources, i), files, key)
  {
    if i > 0 {
      assert sources[..i] == sources[..i - 1] + [sources[i - 1]];
      TreeOthers(files, effects, names, sources, i - 1, key);
      ImageTreeOther(Tree(files, effects, names, sources, i - 1), effects, names, sources[i - 1], |names|, key);
    }
  }

  lemma {:induction false} ImageSuccessesBound(effects: Effects, n: string, j: nat)
    ensures ImageSuccesses(effects, n, j) <= j
    ensures ImageSuccesses(effects, n, j) == j <==> forall k :: 0 <= k < j ==> effects(k, n).Written?
  {
    if j > 0 {
      ImageSuccessesBound(effects, n, j - 1);
    }
  }

  /**
   * At most i * m pairs succeed, and exactly i * m only when every pair wrote its file: a
   * count of i * m says nothing about failures unless they are ruled out.
   */
  lemma {:induction false} SuccessesBound(effects: Effects, m: nat, sources: seq<string>, i: nat)
    requires i <= |sources|
    ensures Successes(effects, m, sources, i) <= i * m
    ensures Successes(effects, m, sources, i) == i * m <==>
      forall a, k :: 0 <= a < i && 0 <= k < m ==> effects(k, sources[a]).Written?
  {
    if i > 0 {
      SuccessesBound(effects, m, sources, i - 1);
      ImageSuccessesBound(effects, sources[i - 1], m);
      assert i * m == (i - 1) * m + m;
    }
  }

  /**
   * The output tree after a batch: the file of each (entry, image) pair is what that pair's
   * write made of the file before the batch, and every other file is untouched.
   */
  lemma OutputTree(effects: Effects, names: seq<string>, sources: seq<string>,
                   before: map<(string, string), Content>, after: map<(string, string), Content>)
    requires Distinct(names)
    requires after == Tree(before, effects, names, sources, |sources|)
    ensures forall a, k :: 0 <= a < |sources| && 0 <= k < |names| ==>
      SameAt(after, Put(before, (names[k], sources[a]), effects(k, sources[a])), (names[k], sources[a]))
    ensures forall key: (string, string) :: key.0 !in names || key.1 !in sources ==> SameAt(after, before, key)
  {
    forall a, k | 0 <= a < |sources| && 0 <= k < |names|
      ensures SameAt(after, Put(before, (names[k], sources[a]), effects(k, sources[a])), (names[k], sources[a]))
    {
      TreeAt(before, effects, names, sources, |sources|, a, k);
    }
    forall key: (string, string) | key.0 !in names || key.1 !in sources
      ensures SameAt(after, before, key)
    {
      assert sources[..|sources|] == sources;
      TreeOthers(before, effects, names, sources, |sources|, key);
    }
  }

  /** The lines printed for the first i source images: each image's lines after the previous ones'. */
  function Joined<T>(lines: string -> seq<T>, sources: seq<string>, i: nat): seq<T>
    requires i <= |sources|
  {
    if i == 0 then [] else Joined(lines, sources, i - 1) + lines(sources[i - 1])
  }

  /** Image a's lines stand, whole and in order, right after the lines of the images before it. */
  lemma {:induction false} JoinedAt<T>(lines: string -> seq<T>, sources: seq<string>, i: nat, a: nat)
    requires a < i <= |sources|
    ensures var start := |Joined(lines, sources, a)|;
      start + |lines(sources[a])| <= |Joined(lines, sources, i)| &&
      Joined(lines, sources, i)[start..start + |lines(sources[a])|] == lines(sources[a])
  {
    if a < i - 1 {
      JoinedAt(lines, sources, i - 1, a);
      var prev := Joined(lines, sources, i - 1);
      var start := |Joined(lines, sources, a)|;
      assert (prev + lines(sources[i - 1]))[start..start + |lines(sources[a])|] == prev[start..start + |lines(sources[a])|];
    }
  }
}
