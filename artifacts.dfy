/** The names under which the walk saves the three artifacts of every tile
    of a frame pair: a base name taken from the key-frame path, an artifact
    tag and the tile index. */
module Artifacts {
  import opened Text
  import opened Failures
  import opened Manifest

  /** Default data root and output directory. */
  const DataDirectory: string := "/data/cityscapes_dataset/cityscape/"
  const SaveDirectory: string := "/data/cityscapes_dataset/cityscape/decision/pred/train/"

  /** The Cityscapes frame-name suffix stripped from the base name. */
  const FrameSuffix: string := "leftImg8bit.png"

  /** `f1.split('/')[7].replace("leftImg8bit.png", "")`: component 7 of the
      key-frame path with every occurrence of the suffix removed; a path of
      fewer than eight components raises `IndexError`. */
  function BaseName(keyPath: string): (r: Result<string>)
    ensures r.Ok? <==> Count(keyPath, '/') >= 7
    ensures r.Err? ==> r.error == IndexError(Count(keyPath, '/') + 1)
    ensures r.Ok? ==> '/' !in r.value
  {
    var parts := Split(keyPath, '/');
    if |parts| <= 7 then Err(IndexError(|parts|))
    else Ok(RemoveAll(parts[7], FrameSuffix))
  }

  /** The suffix cannot overlap itself. */
  lemma FrameSuffixBorderless()
    ensures FrameSuffix != "" && Borderless(FrameSuffix)
  {
    var p := FrameSuffix;
    forall k | 0 < k < |p| ensures p[k..] != p[..|p| - k] {
      assert p[k..][|p| - k - 1] == 'g';
      assert p[..|p| - k][|p| - k - 1] != 'g' || |p| - k - 1 == 6;
      if |p| - k - 1 == 6 {
        assert p[k..][0] != 'l';
      }
    }
  }

  /** The default data root without its trailing `/`. */
  lemma TrimmedDataDirectory()
    ensures TrimSlash(DataDirectory) == "/data/cityscapes_dataset/cityscape"
  {
    var trimmed := "/data/cityscapes_dataset/cityscape";
    assert DataDirectory == trimmed + "/";
    assert DataDirectory[..|DataDirectory| - 1] == trimmed;
  }

  /** An absolute directory of three plain components splits into an
      empty first component and those three. */
  lemma ThreeComponents(x: string, y: string, z: string)
    requires '/' !in x && '/' !in y && '/' !in z
    ensures Split("/" + x + "/" + y + "/" + z, '/') == ["", x, y, z]
  {
    var a := "" + ['/'] + x;
    var b := a + ['/'] + y;
    assert "/" + x + "/" + y + "/" + z == b + ['/'] + z;
    SplitNoSeparator("", '/');
    SplitNoSeparator(x, '/');
    SplitNoSeparator(y, '/');
    SplitNoSeparator(z, '/');
    SplitAround("", x, '/');
    SplitAround(a, y, '/');
    SplitAround(b, z, '/');
  }

  /** The trimmed default data root, written component by component. */
  lemma TrimmedDataDirectoryParts()
    ensures "/data/cityscapes_dataset/cityscape" == "/" + "data" + "/" + "cityscapes_dataset" + "/" + "cityscape"
  {
    var whole := "/data/cityscapes_dataset/cityscape";
    var parts := "/" + "data" + "/" + "cityscapes_dataset" + "/" + "cityscape";
    assert |whole| == |parts|;
    forall k | 0 <= k < |whole| ensures whole[k] == parts[k] {
    }
  }

  /** The components of the trimmed default data root. */
  lemma TrimmedDataDirectoryComponents()
    ensures Split("/data/cityscapes_dataset/cityscape", '/') == ["", "data", "cityscapes_dataset", "cityscape"]
  {
    TrimmedDataDirectoryParts();
    ThreeComponents("data", "cityscapes_dataset", "cityscape");
  }

  /** The default data root contributes four components before the
      manifest name's own. */
  lemma DataDirectoryComponents(name: string)
    requires !StartsWith(name, "/")
    ensures Split(PathJoin(DataDirectory, name), '/') == ["", "data", "cityscapes_dataset", "cityscape"] + Split(name, '/')
  {
    JoinComponents(DataDirectory, name);
    TrimmedDataDirectory();
    TrimmedDataDirectoryComponents();
  }

  /** With the default data root, a manifest name of the Cityscapes layout
      `split/set/city/<stem>leftImg8bit.png`, where `<stem>` does not itself
      contain the suffix, gives the base name `<stem>`. */
  lemma CityscapesBaseName(dirs: seq<string>, stem: string)
    requires |dirs| == 3 && dirs[0] != "" && forall k :: 0 <= k < 3 ==> '/' !in dirs[k]
    requires '/' !in stem && forall i :: !OccursAt(stem, FrameSuffix, i)
    ensures !StartsWith(Join(dirs + [stem + FrameSuffix], '/'), "/")
    ensures BaseName(PathJoin(DataDirectory, Join(dirs + [stem + FrameSuffix], '/'))) == Ok(stem)
  {
    var parts := dirs + [stem + FrameSuffix];
    var name := Join(parts, '/');
    assert '/' !in FrameSuffix;
    assert '/' !in stem + FrameSuffix;
    SplitJoin(parts, '/');
    assert !StartsWith(name, "/") by {
      FirstFieldIsBefore(name, '/');
      assert Before(name, '/') == dirs[0];
      assert name[0] == dirs[0][0];
    }
    DataDirectoryComponents(name);
    FrameSuffixBorderless();
    StripSuffix(stem, FrameSuffix);
  }

  /** One decimal digit: `str(i)` for `i < 10`. */
  function Digit(i: nat): (d: string)
    requires i < 10
    ensures |d| == 1 && '0' <= d[0] <= '9'
    ensures d[0] as int == '0' as int + i
  {
    [('0' as int + i) as char]
  }

  /** `np.save(name, ...)` writes to `name` with `.npy` appended unless it
      already ends with it. */
  function NpyFile(name: string): (f: string)
    ensures EndsWith(f, ".npy") && StartsWith(f, name)
    ensures EndsWith(name, ".npy") ==> f == name
  {
    if EndsWith(name, ".npy") then name else name + ".npy"
  }

  /** Artifact kinds, in the order they are written for a tile. */
  datatype Kind = FlowFeature | SegFeature | Prediction

  /** The part of an artifact name after the base name. */
  function Tag(i: nat, kind: Kind): string
    requires i < 4
  {
    match kind
    case FlowFeature => "flowfeature_" + Digit(i) + ".npy"
    case SegFeature => "segfeature_" + Digit(i) + ".npy"
    case Prediction => "pred_" + Digit(i) + ".png"
  }

  /** The file written for artifact `kind` of tile `i`: the output
      directory, the base name and the tag.  The tile digit ends the name
      handed to `np.save`, so `.npy` is always appended. */
  function ArtifactName(saveDir: string, base: string, i: nat, kind: Kind): (name: string)
    requires i < 4
    ensures name == saveDir + base + Tag(i, kind)
  {
    var stem := saveDir + base;
    match kind
    case FlowFeature =>
      var x := stem + "flowfeature_" + Digit(i);
      NpyAppended(x);
      assert x + ".npy" == stem + ("flowfeature_" + Digit(i) + ".npy");
      NpyFile(x)
    case SegFeature =>
      var x := stem + "segfeature_" + Digit(i);
      NpyAppended(x);
      assert x + ".npy" == stem + ("segfeature_" + Digit(i) + ".npy");
      NpyFile(x)
    case Prediction =>
      assert stem + "pred_" + Digit(i) + ".png" == stem + ("pred_" + Digit(i) + ".png");
      stem + "pred_" + Digit(i) + ".png"
  }

  /** The three files of tile `i`, in the order the script writes them. */
  function TileArtifacts(saveDir: string, base: string, i: nat): (names: seq<string>)
    requires i < 4
    ensures |names| == 3
    ensures forall k :: 0 <= k < 3 ==> names[k] == saveDir + base + Tag(i, KindOrder[k])
  {
    [ArtifactName(saveDir, base, i, FlowFeature),
     ArtifactName(saveDir, base, i, SegFeature),
     ArtifactName(saveDir, base, i, Prediction)]
  }

  /** The kinds in the order they are written for a tile. */
  const KindOrder: seq<Kind> := [FlowFeature, SegFeature, Prediction]

  /** The files of tiles `0 .. n - 1` in the order the script writes them:
      tile by tile, and within a tile flow feature, segmentation feature,
      prediction, so file `j` is artifact `KindOrder[j % 3]` of tile
      `j / 3`. */
  function ArtifactsUpTo(saveDir: string, base: string, n: nat): (names: seq<string>)
    requires n <= 4
    ensures |names| == 3 * n
  {
    seq(3 * n, j requires 0 <= j < 3 * n => ArtifactName(saveDir, base, j / 3, KindOrder[j % 3]))
  }

  /** The twelve files of one frame pair. */
  function FrameArtifacts(saveDir: string, base: string): (names: seq<string>)
    ensures |names| == 12
  {
    ArtifactsUpTo(saveDir, base, 4)
  }

  /** The files of one more tile are those of the tiles before it followed
      by the tile's own three. */
  lemma TileAppend(saveDir: string, base: string, i: nat)
    requires i < 4
    ensures ArtifactsUpTo(saveDir, base, i + 1) == ArtifactsUpTo(saveDir, base, i) + TileArtifacts(saveDir, base, i)
  {
    var names := ArtifactsUpTo(saveDir, base, i + 1);
    var prev, tile := ArtifactsUpTo(saveDir, base, i), TileArtifacts(saveDir, base, i);
    forall j | 0 <= j < 3 * i + 3 ensures names[j] == (prev + tile)[j] {
      if j < 3 * i {
        assert (prev + tile)[j] == prev[j];
      } else {
        var m := j - 3 * i;
        assert j / 3 == i && j % 3 == m;
        assert (prev + tile)[j] == tile[m];
      }
    }
  }

  /** A name ending in a digit gets `.npy` appended by `np.save`. */
  lemma NpyAppended(x: string)
    requires |x| > 0 && '0' <= x[|x| - 1] <= '9'
    ensures NpyFile(x) == x + ".npy"
  {
    if |x| >= 4 {
      assert x[|x| - 4..][3] == x[|x| - 1];
    }
  }

  /** Each artifact name lies under the output directory and the base
      name, and carries the extension of its kind: `.npy` for the two
      features, `.png` for the prediction. */
  lemma ArtifactNameIsTagged(saveDir: string, base: string, i: nat, kind: Kind)
    requires i < 4
    ensures StartsWith(ArtifactName(saveDir, base, i, kind), saveDir + base)
    ensures EndsWith(ArtifactName(saveDir, base, i, kind), if kind == Prediction then ".png" else ".npy")
  {
    var stem, tag := saveDir + base, Tag(i, kind);
    var name := stem + tag;
    assert name[..|stem|] == stem;
    assert name[|name| - 4..] == tag[|tag| - 4..];
  }

  /** Different tiles or kinds give different tags: the kinds differ in
      length and, within a kind, the tile digit sits at a fixed place. */
  lemma TagsDistinct(i: nat, kind: Kind, i': nat, kind': Kind)
    requires i < 4 && i' < 4 && (i, kind) != (i', kind')
    ensures Tag(i, kind) != Tag(i', kind')
  {
    if kind == kind' {
      var at := match kind case FlowFeature => 12 case SegFeature => 11 case Prediction => 5;
      assert Tag(i, kind)[at] == Digit(i)[0];
      assert Tag(i', kind')[at] == Digit(i')[0];
    }
  }

  /** The twelve files of a frame are pairwise distinct, so no artifact of
      the frame overwrites another. */
  lemma FrameArtifactsDistinct(saveDir: string, base: string)
    ensures forall j, k :: 0 <= j < k < |FrameArtifacts(saveDir, base)| ==>
      FrameArtifacts(saveDir, base)[j] != FrameArtifacts(saveDir, base)[k]
  {
    var names := FrameArtifacts(saveDir, base);
    forall j, k | 0 <= j < k < 12 ensures names[j] != names[k] {
      assert KindOrder[j % 3] == KindOrder[k % 3] ==> j % 3 == k % 3;
      NamesDistinct(saveDir, base, j / 3, KindOrder[j % 3], k / 3, KindOrder[k % 3]);
    }
  }

  /** Artifact names of different tiles or kinds differ. */
  lemma NamesDistinct(saveDir: string, base: string, i: nat, kind: Kind, i': nat, kind': Kind)
    requires i < 4 && i' < 4 && (i, kind) != (i', kind')
    ensures ArtifactName(saveDir, base, i, kind) != ArtifactName(saveDir, base, i', kind')
  {
    TagsDistinct(i, kind, i', kind');
    var stem := saveDir + base;
    assert (stem + Tag(i, kind))[|stem|..] == Tag(i, kind);
    assert (stem + Tag(i', kind'))[|stem|..] == Tag(i', kind');
  }
}
