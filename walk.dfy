/** The frame walk of the prediction script: `num_steps` iterations, each
    reading the next manifest line, running the networks on the key and
    current frame named there, and saving three artifacts per tile.  The
    networks and the file writes are recorded as effects, in order. */
module Walk {
  import opened Text
  import opened Failures
  import opened Manifest
  import opened Artifacts

  /** Default number of frame pairs to process. */
  const NumSteps: nat := 38675

  /** One network run on the joined key-frame and current-frame paths, or
      one file written. */
  datatype Effect = Run(keyPath: string, currentPath: string) | Save(name: string)

  /** The effects performed and the exception, if any, that ended the run. */
  datatype Trace = Trace(effects: seq<Effect>, failure: Option<Error>)

  /** One `Save` per name, in order. */
  function Saves(names: seq<string>): (effects: seq<Effect>)
    ensures |effects| == |names|
    ensures forall k :: 0 <= k < |names| ==> effects[k] == Save(names[k])
  {
    seq(|names|, k requires 0 <= k < |names| => Save(names[k]))
  }

  /** One iteration on the line `readline()` returned: the unpack error
      comes before any network run; a key-frame path too short for a base
      name fails after the run but before any file is written; otherwise
      the run is followed by twelve distinct saves. */
  function Step(line: string, dataDir: string, saveDir: string): (t: Trace)
    ensures ParseLine(line).Err? ==> t == Trace([], Some(ParseLine(line).error))
    ensures ParseLine(line).Ok? ==>
      var e := ParseLine(line).value;
      |t.effects| >= 1 && t.effects[0] == Run(PathJoin(dataDir, e.key), PathJoin(dataDir, e.current))
      && (t.failure.Some? <==> BaseName(PathJoin(dataDir, e.key)).Err?)
    ensures t.failure.Some? ==> |t.effects| <= 1
    ensures t.failure.None? ==> |t.effects| == 13
  {
    match ParseLine(line)
    case Err(e) => Trace([], Some(e))
    case Ok(entry) =>
      var f1 := PathJoin(dataDir, entry.key);
      var f2 := PathJoin(dataDir, entry.current);
      match BaseName(f1)
      case Err(e) => Trace([Run(f1, f2)], Some(e))
      case Ok(base) =>
        Trace([Run(f1, f2)] + Saves(FrameArtifacts(saveDir, base)), None)
  }

  /** The twelve saves of a successful iteration name pairwise distinct
      files, so no artifact of a frame overwrites another. */
  lemma StepSavesDistinct(line: string, dataDir: string, saveDir: string)
    requires Step(line, dataDir, saveDir).failure.None?
    ensures var t := Step(line, dataDir, saveDir);
      |t.effects| == 13
      && (forall k :: 1 <= k < 13 ==> t.effects[k].Save?)
      && (forall j, k :: 1 <= j < k < 13 ==> t.effects[j] != t.effects[k])
  {
    var entry := ParseLine(line).value;
    var base := BaseName(PathJoin(dataDir, entry.key)).value;
    var t := Step(line, dataDir, saveDir);
    var names := FrameArtifacts(saveDir, base);
    FrameArtifactsDistinct(saveDir, base);
    assert t.effects[1..] == Saves(names);
    forall j, k | 1 <= j < k < 13 ensures t.effects[j] != t.effects[k] {
      assert t.effects[j] == Save(names[j - 1]) && t.effects[k] == Save(names[k - 1]);
    }
  }

  /** A step function: what one iteration does with the line it read. */
  type StepFn = string -> Trace

  /** The script's own step, with its data and save directories fixed. */
  function ScriptStep(dataDir: string, saveDir: string): StepFn
  {
    line => Step(line, dataDir, saveDir)
  }

  /** `steps` iterations of the walk from read position `pos`, each on the
      line `readline()` returns there: it stops at the first exception,
      keeping what was done before it. */
  function WalkFrom(text: string, pos: nat, steps: nat, step: StepFn): (t: Trace)
    requires pos <= |text|
    ensures t.failure.None? <==> forall k :: 0 <= k < steps ==> step(NthLine(text, pos, k)).failure.None?
    decreases steps
  {
    if steps == 0 then Trace([], None)
    else
      var t := step(text[pos..LineEnd(text, pos)]);
      assert NthLine(text, pos, 0) == text[pos..LineEnd(text, pos)];
      if t.failure.Some? then t
      else
        var rest := WalkFrom(text, LineEnd(text, pos), steps - 1, step);
        assert forall k :: 0 < k < steps ==> NthLine(text, pos, k) == NthLine(text, LineEnd(text, pos), k - 1);
        assert forall k :: 0 <= k < steps - 1 ==> NthLine(text, LineEnd(text, pos), k) == NthLine(text, pos, k + 1);
        Trace(t.effects + rest.effects, rest.failure)
  }

  /** The manifest's `k`-th line, counting from read position `pos`. */
  function NthLine(text: string, pos: nat, k: nat): string
    requires pos <= |text|
  {
    var p := Cursor(text, pos, k);
    text[p..LineEnd(text, p)]
  }

  /** The whole walk over a manifest, as the script runs it: open the file,
      then `num_steps` times read a line, split it, join the two names onto
      the data directory, run the networks and save each tile's three
      artifacts. */
  method RunWalk(manifest: string, numSteps: nat, dataDir: string, saveDir: string)
    returns (effects: seq<Effect>, failure: Option<Error>)
    ensures Trace(effects, failure) == WalkFrom(manifest, 0, numSteps, ScriptStep(dataDir, saveDir))
  {
    var file := new ManifestFile.Open(manifest);
    effects, failure := ReadSteps(file, numSteps, dataDir, saveDir, ScriptStep(dataDir, saveDir));
  }

  /** The loop of the walk on an open manifest: `steps` times read a line
      and run the step on it, stopping at the first exception.  `walk` is
      the script's step (`ScriptStep`) under a second name, pinned to `Step`
      by the precondition; it is not separate behaviour and exists only so
      that the loop's invariant can speak of it without unfolding it, which
      keeps verification cheap. */
  method ReadSteps(file: ManifestFile, steps: nat, dataDir: string, saveDir: string, ghost walk: StepFn)
    returns (effects: seq<Effect>, failure: Option<Error>)
    requires file.Valid()
    requires forall line {:trigger Step(line, dataDir, saveDir)} :: walk(line) == Step(line, dataDir, saveDir)
    modifies file
    ensures Trace(effects, failure) == WalkFrom(file.text, old(file.pos), steps, walk)
    ensures file.Valid()
    ensures failure.None? ==> file.pos == Cursor(file.text, old(file.pos), steps)
  {
    ghost var start := file.pos;
    effects, failure := [], None;
    var step := 0;
    AfterNothing(WalkFrom(file.text, start, steps, walk));
    while step < steps
      invariant file.Valid()
      invariant step <= steps
      invariant file.pos == Cursor(file.text, start, step)
      invariant WalkFrom(file.text, start, steps, walk)
        == After(effects, WalkFrom(file.text, file.pos, steps - step, walk))
    {
      ghost var at, prior := file.pos, effects;
      var line := file.ReadLine();
      CursorNext(file.text, start, step);
      var done, raised := RunStep(line, dataDir, saveDir);
      WalkAdvance(file.text, at, steps - step, walk, prior, done, raised);
      effects := effects + done;
      if raised.Some? {
        failure := raised;
        return;
      }
      step := step + 1;
    }
    AfterAll(effects);
  }

  /** `t` preceded by the effects `done`. */
  function After(done: seq<Effect>, t: Trace): (r: Trace)
    ensures r.failure == t.failure && |r.effects| == |done| + |t.effects|
  {
    Trace(done + t.effects, t.failure)
  }

  /** Nothing done before a trace leaves it as it is. */
  lemma AfterNothing(t: Trace)
    ensures After([], t) == t
  {
    assert [] + t.effects == t.effects;
  }

  /** Nothing left to do after `done` leaves `done`. */
  lemma AfterAll(done: seq<Effect>)
    ensures After(done, Trace([], None)) == Trace(done, None)
  {
    assert done + [] == done;
  }

  /** One iteration of the walk, read off the read position `pos`: if the
      step on the line there raised, the walk ends with it; otherwise the
      walk goes on from the next line. */
  lemma WalkAdvance(text: string, pos: nat, steps: nat, step: StepFn,
                    prior: seq<Effect>, done: seq<Effect>, raised: Option<Error>)
    requires pos <= |text| && steps > 0
    requires step(text[pos..LineEnd(text, pos)]) == Trace(done, raised)
    ensures raised.Some? ==> After(prior, WalkFrom(text, pos, steps, step)) == Trace(prior + done, raised)
    ensures raised.None? ==>
      After(prior, WalkFrom(text, pos, steps, step))
        == After(prior + done, WalkFrom(text, LineEnd(text, pos), steps - 1, step))
  {
    var rest := WalkFrom(text, LineEnd(text, pos), steps - 1, step);
    assert prior + (done + rest.effects) == prior + done + rest.effects;
  }

  /** The body of the walk's loop on the line just read: unpack it, join
      the two names onto the data directory, run the networks, derive the
      base name and save each tile's three artifacts. */
  method RunStep(line: string, dataDir: string, saveDir: string)
    returns (effects: seq<Effect>, failure: Option<Error>)
    ensures Trace(effects, failure) == Step(line, dataDir, saveDir)
  {
    var entry := ParseLine(line);
    if entry.Err? {
      return [], Some(entry.error);
    }
    var f1 := PathJoin(dataDir, entry.value.key);
    var f2 := PathJoin(dataDir, entry.value.current);
    var filename := BaseName(f1);
    if filename.Err? {
      return [Run(f1, f2)], Some(filename.error);
    }
    var saves := SaveTiles(saveDir, filename.value);
    return [Run(f1, f2)] + saves, None;
  }

  /** The script's `for i in xrange(4)` loop: for each tile, in tile order,
      save its flow feature, its segmentation feature and its prediction.
      The files written are the frame's twelve files, in order. */
  method SaveTiles(saveDir: string, base: string) returns (effects: seq<Effect>)
    ensures effects == Saves(FrameArtifacts(saveDir, base))
  {
    effects := [];
    var i := 0;
    while i < 4
      invariant i <= 4
      invariant effects == Saves(ArtifactsUpTo(saveDir, base, i))
    {
      ghost var prior := effects;
      effects := effects + [Save(ArtifactName(saveDir, base, i, FlowFeature))];
      effects := effects + [Save(ArtifactName(saveDir, base, i, SegFeature))];
      effects := effects + [Save(ArtifactName(saveDir, base, i, Prediction))];
      SavesNextTile(saveDir, base, i, prior);
      i := i + 1;
    }
  }

  /** Saving one more tile's three files, after the saves of the tiles
      before it, gives the saves of the tiles up to and including it. */
  lemma SavesNextTile(saveDir: string, base: string, i: nat, prior: seq<Effect>)
    requires i < 4 && prior == Saves(ArtifactsUpTo(saveDir, base, i))
    ensures prior + [Save(ArtifactName(saveDir, base, i, FlowFeature))]
                  + [Save(ArtifactName(saveDir, base, i, SegFeature))]
                  + [Save(ArtifactName(saveDir, base, i, Prediction))]
         == Saves(ArtifactsUpTo(saveDir, base, i + 1))
  {
    SavesTile(saveDir, base, i);
    SavesAppend(ArtifactsUpTo(saveDir, base, i), TileArtifacts(saveDir, base, i));
    TileAppend(saveDir, base, i);
  }

  /** The saves of one tile are its three files, in order. */
  lemma SavesTile(saveDir: string, base: string, i: nat)
    requires i < 4
    ensures Saves(TileArtifacts(saveDir, base, i))
         == [Save(ArtifactName(saveDir, base, i, FlowFeature)),
             Save(ArtifactName(saveDir, base, i, SegFeature)),
             Save(ArtifactName(saveDir, base, i, Prediction))]
  {
  }

  /** `Saves` distributes over concatenation. */
  lemma SavesAppend(a: seq<string>, b: seq<string>)
    ensures Saves(a + b) == Saves(a) + Saves(b)
  {
    var l, r := Saves(a + b), Saves(a) + Saves(b);
    assert |l| == |r|;
    forall k | 0 <= k < |l| ensures l[k] == r[k] {
      if k < |a| {
        assert (a + b)[k] == a[k];
      } else {
        assert (a + b)[k] == b[k - |a|];
      }
    }
  }

  /** Every iteration that raises no exception performs thirteen effects. */
  ghost predicate ThirteenEffects(step: StepFn)
  {
    forall line :: step(line).failure.None? ==> |step(line).effects| == 13
  }

  /** A walk that finishes without an exception performed exactly thirteen
      effects per iteration. */
  lemma {:induction false} WalkLength(text: string, pos: nat, steps: nat, step: StepFn)
    requires pos <= |text| && ThirteenEffects(step)
    requires WalkFrom(text, pos, steps, step).failure.None?
    ensures |WalkFrom(text, pos, steps, step).effects| == 13 * steps
    decreases steps
  {
    if steps > 0 {
      WalkLength(text, LineEnd(text, pos), steps - 1, step);
    }
  }

  /** Iteration `k` of a walk that finishes consumes the manifest's `k`-th
      line: its thirteen effects are those of the step on that line. */
  lemma {:induction false} WalkInOrder(text: string, pos: nat, steps: nat, step: StepFn, k: nat)
    requires pos <= |text| && k < steps && ThirteenEffects(step)
    requires WalkFrom(text, pos, steps, step).failure.None?
    ensures |WalkFrom(text, pos, steps, step).effects| == 13 * steps
    ensures WalkFrom(text, pos, steps, step).effects[13 * k..13 * k + 13]
         == step(NthLine(text, pos, k)).effects
    decreases steps
  {
    WalkLength(text, pos, steps, step);
    var t := step(text[pos..LineEnd(text, pos)]);
    var all := WalkFrom(text, pos, steps, step).effects;
    if k == 0 {
      assert all[..13] == t.effects;
    } else {
      var rest := WalkFrom(text, LineEnd(text, pos), steps - 1, step);
      WalkInOrder(text, LineEnd(text, pos), steps - 1, step, k - 1);
      assert all[13 * k..13 * k + 13] == rest.effects[13 * (k - 1)..13 * (k - 1) + 13];
    }
  }

  /** Asking for more iterations than the manifest has lines fails when the
      step rejects the empty line `readline()` returns at end of file. */
  lemma {:induction false} ShortManifestFails(text: string, pos: nat, steps: nat, step: StepFn)
    requires pos <= |text| && steps > LinesLeft(text, pos)
    requires step("").failure.Some?
    ensures WalkFrom(text, pos, steps, step).failure.Some?
    decreases steps
  {
    if pos == |text| {
      assert text[pos..LineEnd(text, pos)] == "";
    } else if step(text[pos..LineEnd(text, pos)]).failure.None? {
      ShortManifestFails(text, LineEnd(text, pos), steps - 1, step);
    }
  }

  /** The script's walk: if it finishes, it did thirteen effects per
      iteration, iteration `k` being the step on the `k`-th manifest line;
      and asking for more iterations than there are lines raises. */
  lemma ScriptWalk(manifest: string, numSteps: nat, dataDir: string, saveDir: string)
    ensures var w := WalkFrom(manifest, 0, numSteps, ScriptStep(dataDir, saveDir));
      && (w.failure.None? ==> |w.effects| == 13 * numSteps)
      && (w.failure.None? ==> forall k :: 0 <= k < numSteps ==>
            w.effects[13 * k..13 * k + 13] == Step(NthLine(manifest, 0, k), dataDir, saveDir).effects)
      && (numSteps > LinesLeft(manifest, 0) ==> w.failure.Some?)
  {
    var step := ScriptStep(dataDir, saveDir);
    assert ThirteenEffects(step);
    EndOfFileRejected();
    assert step("").failure.Some?;
    var w := WalkFrom(manifest, 0, numSteps, step);
    if w.failure.None? {
      WalkLength(manifest, 0, numSteps, step);
      forall k | 0 <= k < numSteps
        ensures w.effects[13 * k..13 * k + 13] == Step(NthLine(manifest, 0, k), dataDir, saveDir).effects
      {
        WalkInOrder(manifest, 0, numSteps, step, k);
      }
    }
    if numSteps > LinesLeft(manifest, 0) {
      ShortManifestFails(manifest, 0, numSteps, step);
    }
  }
}
