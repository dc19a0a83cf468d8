/**
 * The asset resolver's path computation: a fixture file named relative to
 * the `data` directory that sits beside the `features` directory holding
 * the running feature file.
 */
module DataPath {
  import opened Wrappers
  import PyStrings

  /** `list.index` raising `ValueError` when no segment is `features`. */
  datatype PathError = NoFeaturesSegment

  /** `segs.index(x)`: the first position holding `x`. */
  function IndexOf(segs: seq<string>, x: string): (i: nat)
    requires x in segs
    ensures i < |segs| && segs[i] == x
    ensures x !in segs[..i]
  {
    if segs[0] == x then 0
    else
      var j := IndexOf(segs[1..], x);
      assert segs[1..][..j] == segs[1..j + 1];
      assert segs[..j + 1] == [segs[0]] + segs[1..j + 1];
      j + 1
  }

  /**
   * The segments `_fileopen` joins into the asset path: the feature file's
   * segments before its first `features` segment, then `data`, then the
   * file name.
   */
  function DataSegments(featureFile: string, sep: char, filename: string): (r: Result<seq<string>, PathError>)
    ensures r.Ok? <==> "features" in PyStrings.Split(featureFile, sep)
    ensures r.Ok? ==>
      var segs := PyStrings.Split(featureFile, sep);
      var k := |r.value| - 2;
      |r.value| >= 2 && r.value[k..] == ["data", filename] &&
      k < |segs| && segs[k] == "features" &&
      r.value[..k] == segs[..k] && "features" !in r.value[..k]
  {
    var segs := PyStrings.Split(featureFile, sep);
    if "features" in segs then
      var k := IndexOf(segs, "features");
      var path := segs[..k] + ["data", filename];
      assert path[..k] == segs[..k];
      Ok(path)
    else Err(NoFeaturesSegment)
  }

  /** A feature file below `root`/features resolves a name inside `root`/data. */
  lemma AssetBesideFeatures(root: seq<string>, below: seq<string>, sep: char, filename: string)
    requires "features" !in root && sep !in "features"
    requires forall i :: 0 <= i < |root| ==> sep !in root[i]
    requires forall i :: 0 <= i < |below| ==> sep !in below[i]
    ensures DataSegments(PyStrings.Join(sep, root + ["features"] + below), sep, filename) == Ok(root + ["data", filename])
  {
    var segs := root + ["features"] + below;
    forall i | 0 <= i < |segs| ensures sep !in segs[i] {
      if i < |root| { assert segs[i] == root[i]; }
      else if i > |root| { assert segs[i] == below[i - |root| - 1]; }
      else { assert segs[i] == "features"; }
    }
    PyStrings.SplitJoin(segs, sep);
    assert PyStrings.Split(PyStrings.Join(sep, segs), sep) == segs;
    assert segs[|root|] == "features";
    assert "features" in segs;
    var k := IndexOf(segs, "features");
    assert segs[..|root|] == root;
    assert k == |root|;
  }

  /**
   * Every feature file under the same `features` directory resolves a name
   * to the same asset, whatever sub-directories lie below `features`.
   */
  lemma SameTreeSameAsset(root: seq<string>, below1: seq<string>, below2: seq<string>, sep: char, filename: string)
    requires "features" !in root && sep !in "features"
    requires forall i :: 0 <= i < |root| ==> sep !in root[i]
    requires forall i :: 0 <= i < |below1| ==> sep !in below1[i]
    requires forall i :: 0 <= i < |below2| ==> sep !in below2[i]
    ensures DataSegments(PyStrings.Join(sep, root + ["features"] + below1), sep, filename)
         == DataSegments(PyStrings.Join(sep, root + ["features"] + below2), sep, filename)
  {
    AssetBesideFeatures(root, below1, sep, filename);
    AssetBesideFeatures(root, below2, sep, filename);
  }
}
