# DVSNet prediction test-case generator, modelled in Dafny

This project models the deterministic core of `train/gentestcase_pred.py`, the
script that walks a manifest of Cityscapes frame pairs and, for each pair, runs
the segmentation and flow networks on four tiles of the frames and saves three
artifacts per tile. The networks, TensorFlow and the file system stay outside;
what is modelled is the logic around them:

- **Tiles** — the quadrant split of lines 85–87. A frame is cut into four tiles
  stacked as top-left, top-right, bottom-left, bottom-right. The segmentation
  input (1024 × 2048) is cut at (512, 1024) and the two flow inputs
  (512 × 1024) at (256, 512). The pixel type is generic.
- **Labels** — `tf.cast(tf.argmax(wrap_output, axis=3), tf.uint8)` of line 102. It
  is modelled on integer scores, and the tie-break is left open.
- **Manifest** — the manifest file and its read position (`readline()`), the
  unpacking `f1, f2, f3 = line.split('\n')[0].split(' ')`, and `os.path.join`
  with POSIX semantics (lines 121, 124–126).
- **Artifacts** — the base name `f1.split('/')[7].replace("leftImg8bit.png", "")`
  and the twelve file names of a frame pair (lines 130–134). The names include
  the `.npy` extension that `np.save` appends.
- **Walk** — the `num_steps` loop of line 123 as a method over the manifest
  text. It records what happens as a trace of effects: one `Run` per network
  evaluation and one `Save` per file written, in order. It stops at the first
  exception.
- **Text** and **Failures** — Python 2 `str.split`, `str.join`,
  `str.replace(p, "")`, `startswith` and `endswith` on one-character
  separators, and the two exceptions the loop can raise (`ValueError` from
  unpacking, `IndexError` from `[7]`).

Facts about the script that the model keeps:

- Lines are split on the single character `' '`, not on general whitespace.
  Doubled spaces give empty fields. Three names with a doubled space give
  four fields and fail to unpack. Two names separated by a doubled space
  unpack, with an empty current-frame name.
- The arg-max tie-break is left unspecified, since `tf.argmax` does not
  promise one.
- The base name is component 7 of the joined key-frame path, which is not
  always the last component.
- Every occurrence of `leftImg8bit.png` is removed, wherever it stands in
  the component.
- A frame pair produces twelve files (four tiles × three kinds).
- A manifest with fewer lines than `num_steps` ends the run with an
  exception: the empty line `readline()` returns at end of file fails to
  unpack, unless an earlier line has already raised.

## Model

| member | source | states |
|---|---|---|
| Tiles.Crop | train/gentestcase_pred.py:85 | the slice `img[r0:r1, c0:c1]` has shape `(r1-r0) × (c1-c0)`, and its pixel `(r, c)` is the frame pixel `(r0+r, c0+c)` |
| Tiles.Quadrants | train/gentestcase_pred.py:85-87 | splitting a `2h × 2w` frame yields exactly four tiles of `h × w` each |
| Tiles.SegmentationBatch | train/gentestcase_pred.py:85 | the segmentation batch of the 1024 × 2048 input consists of four 512 × 1024 tiles |
| Tiles.FlowBatch | train/gentestcase_pred.py:86-87 | a flow batch of the `input_size//2` = 512 × 1024 input consists of four 256 × 512 tiles |
| Tiles.OffsetsAreQuotientAndRemainder | train/gentestcase_pred.py:85-87 | tile `i` starts at row `(i/2)·h` and column `(i%2)·w` |
| Tiles.TilePixel | train/gentestcase_pred.py:85-87 | tile `i` at `(r, c)` is the frame pixel `(r + (i/2)·h, c + (i%2)·w)` |
| Tiles.PixelHasOneOwner | train/gentestcase_pred.py:85-87 | a tile position maps to a frame pixel exactly when it is that pixel's own tile at the pixel's local offset, so each pixel has exactly one owner |
| Tiles.Assemble | train/gentestcase_pred.py:85-87 | four `h × w` tiles put back together form a `2h × 2w` frame |
| Tiles.AssembleQuadrants | train/gentestcase_pred.py:85-87 | reassembling the four tiles reproduces the frame exactly |
| Tiles.QuadrantsAssemble | train/gentestcase_pred.py:85-87 | splitting a reassembled frame gives back the tiles, so split and reassembly are inverse bijections |
| Tiles.Downsample | train/gentestcase_pred.py:81-82 | a 2 × 2 block reduction of a `2h × 2w` frame is `h × w` |
| Tiles.PixelMap | train/gentestcase_pred.py:79 | a per-pixel map keeps the frame's shape |
| Tiles.QuadrantAgreesAcrossScales | train/gentestcase_pred.py:84-87 | a full-resolution pixel and its half-resolution counterpart lie in the same tile index |
| Tiles.DownsampleAt | train/gentestcase_pred.py:81-82 | a downsampled pixel is the block function of its 2 × 2 block |
| Tiles.QuadrantIsTile | train/gentestcase_pred.py:85-87 | entry `i` of the four-way split is the single crop at offsets `((i/2)·h, (i%2)·w)` |
| Tiles.TileAt | train/gentestcase_pred.py:85-87 | pixel `(r, c)` of that crop is the frame pixel `(r + (i/2)·h, c + (i%2)·w)` |
| Tiles.BlocksAgree | train/gentestcase_pred.py:81-82 | two frames with the same 2 × 2 block at two positions downsample to the same pixel there |
| Tiles.TileBlockAt | train/gentestcase_pred.py:85-87 | each pixel of the 2 × 2 block under tile pixel `(r, c)` at full resolution is the frame pixel at twice the matching half-resolution position |
| Tiles.TileBlock | train/gentestcase_pred.py:85-87 | the whole 2 × 2 block of tile `i` is the frame's block at the doubled shifted position |
| Tiles.DownsampleTilePixel | train/gentestcase_pred.py:81-87 | one pixel of the commuting square: tile `i` of the downsampled frame and the downsampled tile `i` agree at `(r, c)` |
| Tiles.QuadrantsOfDownsample | train/gentestcase_pred.py:81-87 | tile `i` of the downsampled frame equals the downsampled tile `i` of the full frame |
| Tiles.QuadrantsOfPixelMap | train/gentestcase_pred.py:79-85 | tile `i` of a per-pixel-mapped frame equals the mapped tile `i` |
| Tiles.TileOrderAgrees | train/gentestcase_pred.py:79-87 | tile `i` of the segmentation batch and tile `i` of the flow batch both derive from tile `i` of the same 1024 × 2048 frame split at (512, 1024) |
| Labels.ArgMax | train/gentestcase_pred.py:102 | the result is the index of some maximal score |
| Labels.ToUInt8 | train/gentestcase_pred.py:102 | the `uint8` cast keeps the low 8 bits, and an index below 256 is unchanged |
| Labels.Label | train/gentestcase_pred.py:102 | a label is the cast of some maximal class index; with at most 256 classes it is itself a maximal index |
| Labels.LabelBatch | train/gentestcase_pred.py:102 | the label batch has the score batch's shape minus the class axis, and each label is the cast of a maximal class index of its own pixel |
| Labels.UniqueMaxIsLabel | train/gentestcase_pred.py:102 | a class with a strictly largest score is the label |
| Labels.DefaultLabelsAreClasses | train/gentestcase_pred.py:102 | with the default 19 classes every label lies in `[0, 19)` and is a maximal class |
| Labels.DominantClassEverywhere | train/gentestcase_pred.py:102 | if class `k` strictly dominates at every pixel, then every label of the batch is `k` |
| Text.Split | train/gentestcase_pred.py:124 | `split(c)` gives one more field than there are separators, and no field contains the separator |
| Text.JoinSplit | train/gentestcase_pred.py:124 | joining the fields of a split gives back the string |
| Text.SplitJoin | train/gentestcase_pred.py:124 | splitting a join of separator-free fields gives back the fields |
| Text.SplitAround | train/gentestcase_pred.py:124 | the fields of `a + sep + b` are those of `a` followed by those of `b` |
| Text.FirstFieldIsBefore | train/gentestcase_pred.py:124 | `split(c)[0]` is the text before the first `c` |
| Text.Before | train/gentestcase_pred.py:124 | the result is the longest prefix without `c`, and it ends at a `c` or at the end |
| Text.RemoveAll | train/gentestcase_pred.py:130 | `replace(p, "")` never lengthens a string and only keeps characters of it |
| Text.RemoveAllAround | train/gentestcase_pred.py:130 | an occurrence of `p` anywhere in a string is removed: if none starts inside `x`, removing `p` from `x + p + y` gives `x` followed by `y` with `p` removed |
| Text.RemoveAllAbsent | train/gentestcase_pred.py:130 | removing a pattern that does not occur changes nothing |
| Text.StripSuffix | train/gentestcase_pred.py:130 | for a pattern that cannot overlap itself, removing it from `x + p` gives `x` when `x` does not contain `p` (RemoveAllAround with an empty `y`) |
| Manifest.ManifestFile.Open | train/gentestcase_pred.py:121 | opening the manifest starts reading at position 0 |
| Manifest.ManifestFile.ReadLine | train/gentestcase_pred.py:124 | `readline()` returns the text up to and including the next newline and moves the read position past it |
| Manifest.LineEnd | train/gentestcase_pred.py:124 | a line ends just past its first newline, or at the end of the text |
| Manifest.ReadLineShape | train/gentestcase_pred.py:124 | the line read is empty exactly at end of file, and a newline can only be its last character |
| Manifest.CursorAtEnd | train/gentestcase_pred.py:123-124 | after `k` reads the file is exhausted exactly when `k` is at least the number of lines left; `Cursor(text, pos, k)` is the read position after `k` calls of `readline()` from `pos`, and `LinesLeft(text, pos)` the number of non-empty lines from `pos` |
| Manifest.CursorNext | train/gentestcase_pred.py:123-124 | one more `readline()` moves the read position (`Cursor`, the position after `k` reads) to the end of the line it stood at |
| Manifest.LinesLeftCountsNewlines | train/gentestcase_pred.py:123-124 | the number of lines is the number of newlines, plus one for an unterminated last line |
| Manifest.ParseLine | train/gentestcase_pred.py:124 | a line is accepted iff the text before its first newline holds exactly two spaces; otherwise it fails with `ValueError`, the model recording the field count; and accepted fields joined by spaces give that text back |
| Manifest.ParseLineRoundTrip | train/gentestcase_pred.py:124 | three space-free names written as a manifest line are read back exactly |
| Manifest.DoubledSpaceUnpacks | train/gentestcase_pred.py:124 | two names separated by a doubled space unpack, with an empty current-frame name |
| Manifest.EndOfFileRejected | train/gentestcase_pred.py:124 | the empty string `readline()` returns at end of file fails to unpack, with one field |
| Manifest.TwoFieldsRejected | train/gentestcase_pred.py:124 | a line with two names fails to unpack, with two fields |
| Manifest.PathJoin | train/gentestcase_pred.py:125-126 | `os.path.join(a, b)` ends with `b`; an absolute `b` replaces `a`; an empty `a` gives `b` itself; otherwise the result starts with `a` and adds at most one `/` |
| Manifest.JoinComponents | train/gentestcase_pred.py:125-126 | the `/`-components of a joined path are the directory's followed by the name's |
| Artifacts.BaseName | train/gentestcase_pred.py:130 | the base name exists iff the path has at least eight `/`-components, otherwise `IndexError`, and it contains no `/` |
| Artifacts.FrameSuffixBorderless | train/gentestcase_pred.py:130 | `leftImg8bit.png` cannot overlap itself |
| Artifacts.DataDirectoryComponents | train/gentestcase_pred.py:20 | the default data root contributes four components, `""`, `data`, `cityscapes_dataset` and `cityscape` |
| Artifacts.CityscapesBaseName | train/gentestcase_pred.py:125-130 | with the default root, a manifest name `split/set/city/<stem>leftImg8bit.png` gives the base name `<stem>` |
| Artifacts.Digit | train/gentestcase_pred.py:132-134 | `str(i)` of a tile index is the one decimal digit whose code is `'0' + i` |
| Artifacts.NpyFile | train/gentestcase_pred.py:132-133 | `np.save` writes to a name ending in `.npy` that starts with the name given, and leaves a name already ending in `.npy` unchanged |
| Artifacts.NpyAppended | train/gentestcase_pred.py:132-133 | a name ending in a digit gets `.npy` appended |
| Artifacts.ArtifactName | train/gentestcase_pred.py:132-134 | the file `np.save` or `cv2.imwrite` writes for one artifact is the output directory, the base name and the kind's tag: `flowfeature_<i>.npy`, `segfeature_<i>.npy` or `pred_<i>.png` |
| Artifacts.TileArtifacts | train/gentestcase_pred.py:131-134 | one pass of the inner loop writes three files, the flow feature, segmentation feature and prediction of tile `i`, in that order |
| Artifacts.ArtifactsUpTo | train/gentestcase_pred.py:131-134 | the first `n` tiles write `3n` files |
| Artifacts.FrameArtifacts | train/gentestcase_pred.py:131-134 | a frame pair writes exactly twelve files |
| Artifacts.TileAppend | train/gentestcase_pred.py:131-134 | the files of one more tile are those before it followed by the tile's flow feature, segmentation feature and prediction |
| Artifacts.ArtifactNameIsTagged | train/gentestcase_pred.py:132-134 | every file name starts with the output directory and the base name, and ends in `.npy` for the two features and in `.png` for the prediction |
| Artifacts.TagsDistinct | train/gentestcase_pred.py:132-134 | different tiles or kinds give different tags |
| Artifacts.NamesDistinct | train/gentestcase_pred.py:132-134 | different tiles or kinds give different file names |
| Artifacts.FrameArtifactsDistinct | train/gentestcase_pred.py:131-134 | the twelve files of a frame pair are pairwise distinct |
| Walk.Saves | train/gentestcase_pred.py:132-134 | one `Save` per name, in order |
| Walk.Step | train/gentestcase_pred.py:124-134 | an unpacking error ends the iteration before any network run; otherwise the run on the joined paths comes first, and a base-name error ends the iteration right after it, before any write; otherwise thirteen effects follow |
| Walk.StepSavesDistinct | train/gentestcase_pred.py:128-134 | a successful iteration is one run followed by twelve saves to pairwise distinct files |
| Walk.WalkFrom | train/gentestcase_pred.py:123-134 | the walk of `steps` iterations ends without an exception exactly when the step on each of the next `steps` manifest lines raises none |
| Walk.RunWalk | train/gentestcase_pred.py:121-134 | opening the manifest and running the loop gives exactly the trace of `num_steps` iterations that stops at the first exception |
| Walk.ReadSteps | train/gentestcase_pred.py:123-134 | each iteration reads the next line and runs the step on it; the trace is the walk from the starting read position, the file stays valid, and a walk without an exception leaves the read position `steps` lines further on |
| Walk.RunStep | train/gentestcase_pred.py:124-134 | the loop body on a line performs exactly the effects of `Step` on that line and raises what it raises |
| Walk.SaveTiles | train/gentestcase_pred.py:131-134 | the inner `for i in xrange(4)` loop saves the frame's twelve files in order |
| Walk.SavesNextTile | train/gentestcase_pred.py:131-134 | the three saves of one more tile, after those of the tiles before it, are the saves of the tiles up to it |
| Walk.SavesTile | train/gentestcase_pred.py:132-134 | one tile's saves are its flow feature, segmentation feature and prediction, in that order |
| Walk.SavesAppend | train/gentestcase_pred.py:131-134 | saves distribute over concatenation of name lists |
| Walk.WalkAdvance | train/gentestcase_pred.py:123-124 | one iteration either ends the walk with its exception or is followed by the walk from the next line |
| Walk.WalkLength | train/gentestcase_pred.py:123-134 | a walk without an exception performs exactly thirteen effects per iteration |
| Walk.WalkInOrder | train/gentestcase_pred.py:123-124 | iteration `k` of a walk without an exception consists of exactly the step on the manifest's `k`-th line, `NthLine(text, pos, k)`: the line `readline()` returns after `k` earlier calls |
| Walk.ShortManifestFails | train/gentestcase_pred.py:123-124 | asking for more iterations than the manifest has lines ends in an exception |
| Walk.ScriptWalk | train/gentestcase_pred.py:123-134 | the script's walk, when it finishes, has thirteen effects per iteration, iteration `k` being the step on line `k`; with fewer lines than `num_steps` it raises |

## Left out

- Image decoding, `preprocess`, mean subtraction and every `resize_bilinear`
  (lines 73–82, 99, 101) are floating-point numerics inside TensorFlow.
  Tiles.Downsample and Tiles.PixelMap model only their shape: a block
  reduction and a per-pixel map with generic functions. Bilinear weights are
  not modelled.
- Tiles.TileOrderAgrees: takes the decoded frame to be 1024 × 2048 already,
  the Cityscapes frame size. Under that assumption the resize of line 79 is
  the identity (leaving the per-pixel mean subtraction) and the half-size
  resize of lines 81–82 is a 2 × 2 block function. For any other decoded size
  both are genuine bilinear resizes, and they are not modelled.
- `warp` and the multiply by `flows['scale']` (lines 99–100) are left out:
  `warp` lives in `tools/flow_utils.py`, which is not part of this model, and
  both are float arithmetic.
- The `DeepLab_Fast` and `FlowNets` networks (lines 90–91, 97–98) are left
  out; their sources are not part of this model. A network evaluation appears
  only as a `Run` effect, and the scores reach Labels.LabelBatch as given
  integer arrays.
- The TensorFlow session, GPU configuration and checkpoint restore
  (lines 50–59, 66, 104–117), argument parsing (lines 29–48), the `tqdm`
  progress bar and the final message are left out. The command-line values
  appear only as parameters, with the defaults as constants.
- Walk.RunWalk: `num_steps` is a natural number. `--num-steps` is parsed as
  any `int` (line 46), and a negative value makes the loop run no iterations,
  like 0; that input is not modelled.
- Creating the output directory (`os.path.exists` and `makedirs`, lines
  119–120) is left out. File writes are not performed: `np.save` and
  `cv2.imwrite` (lines 132–134) become `Save` effects carrying the file name. A
  failing decode of a missing or corrupt image inside `sess.run` is not
  modelled, so a `Run` never fails.
- The manifest is given as its full text, and `open` is assumed to succeed.
- Labels.Label: states only that the label is the cast of *some* maximal
  index. This is deliberate: `tf.argmax` does not fix which tied index it
  returns.
- Artifacts.BaseName: for a general path the contract does not describe the
  value beyond its length of eight or more components and the absence of `/`.
  Artifacts.CityscapesBaseName gives the value for the Cityscapes layout.
  Removing one occurrence of the suffix can join the text on either side into
  a new occurrence: `leftImg8bleftImg8bit.pngit.png` becomes `leftImg8bit.png`.
  That is Python's behaviour and it is modelled, not excluded.
- `Digit` covers tile indices below 10, which is all `str(i)` is asked for
  (`i < 4`).
