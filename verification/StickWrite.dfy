/** Writing a stick (scripts/bootstick.py, write): the order of the steps over
    the disk and the kept image, with a failure, a crash or a lost write at any
    step, any number of runs, and an operating system that writes to a disk
    whose table it can see. */
module StickWrite {
  import opened Bytes

  /** A sector's contents; 0 is a sector of zeros. */
  type Sector = int
  type Image = seq<Sector>
  const BLANK: Sector := 0
  const TAIL := 2048

  /** Where a run stands. Building is inside the block whose failure removes the
      image; Staged is after it, with the image whole and the disk not yet touched. */
  datatype Stage = Idle | Building | Staged | Blanked | Tailed | Written | Checked | Exposed | Verified

  /** `img` is the image of the current or last run, `whole` the disk as that run
      found it (and the system left it), `begun` whether that run began to write,
      `blanked` whether sector 0 has been blank since. `foreign` are the sectors the
      system wrote since, or since the read-back those of the image; `owed` the images
      of all runs that began to write and were not verified; `moved` what the user took away. */
  datatype World = World(disk: Image, kept: Option<Image>, stage: Stage, img: Image, moved: seq<Image>, whole: Image,
                         begun: bool, blanked: bool, foreign: set<nat>, owed: seq<Image>)

  /** `ok` says whether a step returned, `took` and `done` which sectors a write
      changed: any of its own, returned or not. */
  datatype Action =
    | Start(image: Image)
    | Build(part: Image)
    | Complete
    | BuildFails
    | StageFails
    | WriteBlank(ok: bool, took: bool)
    | WriteTail(ok: bool, done: set<nat>)
    | WriteRest(ok: bool, done: set<nat>)
    | ReadBack(ok: bool)
    | WriteMbr(ok: bool, took: bool)
    | ReadMbr(ok: bool)
    | Remove
    | Crash
    | Move
    | System(at: nat, put: Sector)

  function Begin(disk: Image): World { World(disk, None, Idle, [], [], disk, false, false, {}, []) }

  function Headless(img: Image): Image
    requires img != []
  {
    img[0 := BLANK]
  }

  /** `was` with the sectors from `at` that `done` names taken from `data`. */
  function Patch(was: Image, at: nat, data: Image, done: set<nat>): (r: Image)
    ensures |r| == |was|
  {
    seq(|was|, k requires 0 <= k < |was| => if at <= k < at + |data| && k in done then data[k - at] else was[k])
  }

  function TailStart(size: nat, total: nat): nat {
    if total - TAIL > size then total - TAIL else size
  }

  function Zeros(n: nat): Image { seq(n, _ => BLANK) }

  /** The run ends without finishing. */
  function Stop(w: World): World { w.(stage := Idle) }

  function Go(w: World, ok: bool, next: Stage): World { if ok then w.(stage := next) else Stop(w) }

  /** The writing begun, the first sector blanked or that write lost: from here the image is owed. */
  function Touch(w: World, took: bool): World
    requires w.disk != []
  {
    w.(disk := if took then w.disk[0 := BLANK] else w.disk, begun := true, blanked := took || w.disk[0] == BLANK,
       foreign := {}, owed := w.owed + [w.img])
  }

  /** The image's part of the disk, written. */
  function PutRest(w: World, done: set<nat>): World
    requires w.img != []
  {
    var disk := Patch(w.disk, 0, Headless(w.img), done);
    w.(disk := disk, blanked := w.blanked || (disk != [] && disk[0] == BLANK))
  }

  function Step(w: World, a: Action): World {
    match a
    case Start(image) =>
      if w.stage == Idle && w.kept.None? then
        w.(stage := Building, img := image, whole := w.disk, begun := false, blanked := false, foreign := {})
      else w
    case Build(part) => if w.stage == Building then w.(kept := Some(part)) else w
    case Complete =>
      if w.stage == Building && 0 < |w.img| <= |w.disk| && w.img[0] != BLANK
      then w.(kept := Some(w.img), stage := Staged) else w
    case BuildFails => if w.stage == Building then Stop(w.(kept := None)) else w
    case StageFails => if w.stage == Staged then Stop(w) else w
    case WriteBlank(ok, took) =>
      if w.stage == Staged && w.disk != [] then Go(if ok || took then Touch(w, took) else w, ok, Blanked) else w
    case WriteTail(ok, done) =>
      if w.stage == Blanked then
        var at := TailStart(|w.img|, |w.disk|);
        if at < |w.disk| then Go(w.(disk := Patch(w.disk, at, Zeros(|w.disk| - at), done)), ok, Tailed)
        else w.(stage := Tailed)
      else w
    case WriteRest(ok, done) =>
      if w.stage == Tailed && w.img != [] then Go(PutRest(w, done), ok, Written) else w
    case ReadBack(ok) =>
      if w.stage == Written && 0 < |w.img| <= |w.disk| then
        if ok && w.disk[..|w.img|] == Headless(w.img)
        then w.(stage := Checked, foreign := set k | k in w.foreign && k >= |w.img|) else Stop(w)
      else w
    case WriteMbr(ok, took) =>
      if w.stage == Checked && w.img != [] && w.disk != [] then
        Go(if took then w.(disk := w.disk[0 := w.img[0]]) else w, ok, Exposed)
      else w
    case ReadMbr(ok) =>
      if w.stage == Exposed && w.img != [] && w.disk != [] then Go(w, ok && w.disk[0] == w.img[0], Verified) else w
    case Remove =>
      if w.stage == Verified && w.owed != [] then
        w.(stage := Idle, kept := None, whole := w.disk, begun := false, owed := w.owed[..|w.owed| - 1])
      else w
    case Crash => Stop(w)
    case Move =>
      if w.stage == Idle && w.kept.Some? then w.(kept := None, moved := w.moved + [w.kept.value]) else w
    case System(at, put) =>
      if Visible(w) && 0 < at < |w.disk| then
        w.(disk := w.disk[at := put], foreign := w.foreign + {at},
           whole := if w.begun || at >= |w.whole| then w.whole else w.whole[at := put])
      else w
  }

  /** Whether the system can find a table: not while sector 0 is blank, nor from the
      unmounting, which ends the building, to the end of the first write. */
  predicate Visible(w: World) {
    w.disk != [] && w.disk[0] != BLANK && w.stage != Staged
  }

  function Play(w: World, run: seq<Action>): World
    decreases |run|
  {
    if run == [] then w else Step(Play(w, run[..|run| - 1]), run[|run| - 1])
  }

  lemma Nothing(w: World)
    ensures Play(w, []) == w
  {}

  lemma Took(w: World, run: seq<Action>, a: Action)
    ensures Play(w, run + [a]) == Step(Play(w, run), a)
  {
    hide Step;
    assert (run + [a])[..|run|] == run;
  }

  lemma {:induction false} PlayMore(w: World, run: seq<Action>, more: seq<Action>)
    ensures Play(w, run + more) == Play(Play(w, run), more)
    decreases |more|
  {
    hide *;
    if more == [] {
      assert run + more == run;
      Nothing(Play(w, run));
    } else {
      var front, a := more[..|more| - 1], more[|more| - 1];
      assert more == front + [a] && run + more == run + front + [a];
      PlayMore(w, run, front);
      Took(w, run + front, a);
      Took(Play(w, run), front, a);
    }
  }

  /** What a disk with no image kept for it comes to, after any run whatever. */
  function After(disk: Image, run: seq<Action>): World { Play(Begin(disk), run) }

  predicate Writing(s: Stage) { s in {Blanked, Tailed, Written, Checked, Exposed, Verified} }

  // What every action keeps.

  ghost predicate Has(w: World, o: Image) { w.kept == Some(o) || o in w.moved }

  /** The image of the last run, whole and in someone's hands. */
  ghost predicate Covered(w: World) { w.begun ==> w.owed != [] && w.owed[|w.owed| - 1] == w.img && Has(w, w.img) }

  /** Images owed by runs before the last that changed the disk are with the user. */
  ghost predicate Settled(w: World) {
    forall k :: 0 <= k < |w.owed| && (w.begun ==> k < |w.owed| - 1) && (w.stage != Idle || w.begun) ==>
      w.owed[k] in w.moved
  }

  /** The disk past sector 0 is the image, but for what the system wrote there. */
  ghost predicate Matches(w: World) {
    forall k :: 0 < k < |w.img| && k < |w.disk| && k !in w.foreign ==> w.disk[k] == w.img[k]
  }

  /** Once sector 0 was blank, a table in it says the rest is the image; until then it is the old one. */
  ghost predicate Guarded(w: World) {
    w.begun ==>
      && 0 < |w.img| <= |w.disk| == |w.whole| && w.img[0] != BLANK
      && (w.blanked ==> w.disk[0] == BLANK || (w.disk[0] == w.img[0] && Matches(w)))
      && (!w.blanked ==> w.disk[0] == w.whole[0] != BLANK)
  }

  ghost predicate InStep(w: World) {
    && |w.whole| == |w.disk|
    && (w.stage in {Staged} || Writing(w.stage) ==>
          w.kept == Some(w.img) && 0 < |w.img| <= |w.disk| && w.img[0] != BLANK)
    && (Writing(w.stage) ==> w.begun)
    && (w.stage in {Building, Staged} ==> !w.begun)
    && (w.stage in {Blanked, Tailed, Written} ==> (w.blanked <==> w.disk[0] == BLANK))
    && (w.stage in {Checked, Exposed, Verified} ==> w.blanked)
    && (w.stage == Checked ==> w.disk[..|w.img|] == Headless(w.img))
    && (w.stage == Verified ==> w.disk[0] == w.img[0])
    && (!w.begun ==> w.disk == w.whole)
  }

  ghost predicate Inv(w: World) {
    && Covered(w) && Settled(w) && Guarded(w) && InStep(w)
    && forall o :: o in w.owed ==> Has(w, o)
  }

  lemma StartKeeps(w: World, image: Image)
    requires Inv(w)
    ensures Inv(Step(w, Start(image)))
  {
    assert forall k :: 0 <= k < |w.owed| ==> w.owed[k] in w.owed;
  }

  lemma BuildKeeps(w: World, a: Action)
    requires Inv(w) && (a.Build? || a.Complete? || a.BuildFails? || a.StageFails? || a.Crash? || a.Move?)
    ensures Inv(Step(w, a))
  {
    assert forall k :: 0 <= k < |w.owed| ==> w.owed[k] in w.owed;
  }

  lemma BlankKeeps(w: World, a: Action)
    requires Inv(w) && a.WriteBlank?
    ensures Inv(Step(w, a))
  {
    assert forall k :: 0 <= k < |w.owed| ==> w.owed[k] in w.owed;
  }

  lemma WriteKeeps(w: World, a: Action)
    requires Inv(w) && (a.WriteTail? || a.WriteRest?)
    ensures Inv(Step(w, a))
  {
    hide Settled, Covered, Has;
    if w.stage == Blanked || w.stage == Tailed { FramedKeeps(w, Step(w, a)); }
  }

  /** A step that touches only the disk and the stage, inside or at the end of a run. */
  lemma FramedKeeps(w: World, v: World)
    requires Covered(w) && Settled(w) && v == w.(disk := v.disk, stage := v.stage, blanked := v.blanked) && w.begun
    ensures Covered(v) && Settled(v) && forall o :: Has(w, o) ==> Has(v, o)
  {}

  lemma ReadKeeps(w: World, a: Action)
    requires Inv(w) && (a.ReadBack? || a.ReadMbr?)
    ensures Inv(Step(w, a))
  {
    hide Patch, TailStart;
  }

  lemma MbrKeeps(w: World, a: Action)
    requires Inv(w) && a.WriteMbr?
    ensures Inv(Step(w, a))
  {
    hide Settled, Covered, Has, Patch, TailStart;
    if w.stage == Checked {
      assert forall k :: 0 < k < |w.img| ==> w.disk[..|w.img|][k] == Headless(w.img)[k] == w.img[k];
      FramedKeeps(w, Step(w, a));
    }
  }

  lemma SystemKeeps(w: World, a: Action)
    requires Inv(w) && a.System?
    ensures Inv(Step(w, a))
  {
    hide Patch, TailStart, Headless;
    if w.stage == Checked { CheckedBlank(w); }
  }

  lemma CheckedBlank(w: World)
    requires 0 < |w.img| <= |w.disk| && w.disk[..|w.img|] == Headless(w.img)
    ensures w.disk[0] == BLANK
  {
    assert w.disk[..|w.img|][0] == w.disk[0];
  }

  lemma RemoveKeeps(w: World)
    requires Inv(w)
    ensures Inv(Step(w, Remove))
  {
    assert forall k :: 0 <= k < |w.owed| ==> w.owed[k] in w.owed;
  }

  lemma StepKeeps(w: World, a: Action)
    requires Inv(w)
    ensures Inv(Step(w, a))
  {
    hide Inv, Step;
    match a
    case Start(image) => StartKeeps(w, image);
    case Build(_) | Complete | BuildFails | StageFails | Crash | Move => BuildKeeps(w, a);
    case WriteBlank(_, _) => BlankKeeps(w, a);
    case WriteTail(_, _) | WriteRest(_, _) => WriteKeeps(w, a);
    case ReadBack(_) | ReadMbr(_) => ReadKeeps(w, a);
    case WriteMbr(_, _) => MbrKeeps(w, a);
    case System(_, _) => SystemKeeps(w, a);
    case Remove => RemoveKeeps(w);
  }

  lemma {:induction false} PlayKeeps(w: World, run: seq<Action>)
    requires Inv(w)
    ensures Inv(Play(w, run))
    decreases |run|
  {
    hide Inv, Step;
    if run != [] {
      PlayKeeps(w, run[..|run| - 1]);
      StepKeeps(Play(w, run[..|run| - 1]), run[|run| - 1]);
    }
  }

  lemma RunKeeps(disk: Image, run: seq<Action>)
    ensures Inv(After(disk, run))
  {
    PlayKeeps(Begin(disk), run);
  }

  // The promises, after any run whatever.

  /** Nothing is lost: the disk is as the last run found it, or that run's image is whole, kept or moved away; and
      so is every earlier one whose disk was never verified. */
  lemma NothingLost(disk: Image, run: seq<Action>)
    ensures var w := After(disk, run);
            && (w.disk == w.whole || Has(w, w.img))
            && (forall o :: o in w.owed ==> Has(w, o))
            && (Writing(w.stage) ==> w.kept == Some(w.img))
  {
    RunKeeps(disk, run);
  }

  /** Once a run has begun to write, a table in sector 0 is the image's own, and the
      rest of the image is there, but for what the system wrote after it; or, if no
      write has blanked sector 0, it is still the one the run found. */
  lemma TableMeansWhole(disk: Image, run: seq<Action>)
    ensures var w := After(disk, run);
            w.begun && w.disk != [] && w.disk[0] != BLANK ==>
              && 0 < |w.img| <= |w.disk| == |w.whole|
              && if w.blanked then w.disk[0] == w.img[0] && Matches(w) else w.disk[0] == w.whole[0]
  {
    RunKeeps(disk, run);
  }

  /** Past the image the disk is as the run found it, but for the last 2048 sectors, which may have been
      zeroed, and for what the system wrote. */
  ghost predicate Beyond(w: World) {
    w.begun ==>
      && |w.whole| == |w.disk|
      && forall k :: |w.img| <= k < |w.disk| && k !in w.foreign ==>
           w.disk[k] == w.whole[k] || (|w.disk| - 2048 <= k && w.disk[k] == BLANK)
  }

  lemma BeyondStep(w: World, a: Action)
    requires Inv(w) && Beyond(w)
    ensures Beyond(Step(w, a))
  {
    hide Covered, Settled, Guarded, Has;
  }

  lemma {:induction false} BeyondPlay(w: World, run: seq<Action>)
    requires Inv(w) && Beyond(w)
    ensures Beyond(Play(w, run))
    decreases |run|
  {
    hide Inv, Step, Beyond;
    if run != [] {
      BeyondPlay(w, run[..|run| - 1]);
      PlayKeeps(w, run[..|run| - 1]);
      BeyondStep(Play(w, run[..|run| - 1]), run[|run| - 1]);
    }
  }

  /** Until the end of the disk is dealt with, the image's own sectors are as the run found them. */
  ghost predicate TailFirst(w: World) {
    w.stage in {Blanked, Tailed} ==>
      && |w.whole| == |w.disk|
      && forall k :: 0 < k < |w.img| && k < |w.disk| && k !in w.foreign ==> w.disk[k] == w.whole[k]
  }

  lemma TailFirstStep(w: World, a: Action)
    requires Inv(w) && TailFirst(w)
    ensures TailFirst(Step(w, a))
  {
    hide Covered, Settled, Guarded, Has;
  }

  lemma {:induction false} TailGoesFirst(disk: Image, run: seq<Action>)
    ensures TailFirst(After(disk, run))
    decreases |run|
  {
    hide Inv, Step;
    if run == [] {
      Nothing(Begin(disk));
    } else {
      hide TailFirst;
      TailGoesFirst(disk, run[..|run| - 1]);
      RunKeeps(disk, run[..|run| - 1]);
      TailFirstStep(After(disk, run[..|run| - 1]), run[|run| - 1]);
    }
  }

  /** Whatever happens to a run. */
  lemma BeyondTheImage(disk: Image, run: seq<Action>)
    ensures Beyond(After(disk, run))
  {
    RunKeeps(disk, []);
    Nothing(Begin(disk));
    hide Inv, Step;
    BeyondPlay(Begin(disk), run);
  }

  lemma LostSteps(disk: Image, image: Image, done: set<nat>)
    requires 0 < |image| <= |disk| && image[0] != BLANK && disk[0] != BLANK && 0 !in done
    ensures var staged := Step(Step(Begin(disk), Start(image)), Complete);
            var w := Step(Step(Step(staged, WriteBlank(true, false)), WriteTail(true, {})), WriteRest(false, done));
            && w.begun && !w.blanked && |w.disk| == |disk| && w.disk[0] == disk[0]
            && forall k :: 0 < k < |image| ==> w.disk[k] == if k in done then image[k] else disk[k]
  {
    var staged := Step(Step(Begin(disk), Start(image)), Complete);
    assert staged.disk == disk && staged.img == image && staged.stage == Staged;
    var tailed := Step(Step(staged, WriteBlank(true, false)), WriteTail(true, {}));
    assert tailed.disk == disk && tailed.stage == Tailed && tailed.img == image && tailed.begun && !tailed.blanked;
  }

  /** The run that needs it said: the blanking lost, and part of the image written under the old table. */
  lemma BlankingLost(disk: Image, image: Image, done: set<nat>) returns (run: seq<Action>)
    requires 0 < |image| <= |disk| && image[0] != BLANK && disk[0] != BLANK && 0 !in done
    ensures var w := After(disk, run);
            && w.begun && !w.blanked && |w.disk| == |disk| && w.disk[0] == disk[0]
            && forall k :: 0 < k < |image| ==> w.disk[k] == if k in done then image[k] else disk[k]
  {
    run := [];
    var w := Begin(disk);
    Nothing(w);
    LostSteps(disk, image, done);
    hide Play, Step;
    Took(w, run, Start(image));
    Took(w, run + [Start(image)], Complete);
    run := run + [Start(image)] + [Complete];
    Took(w, run, WriteBlank(true, false));
    Took(w, run + [WriteBlank(true, false)], WriteTail(true, {}));
    run := run + [WriteBlank(true, false)] + [WriteTail(true, {})];
    Took(w, run, WriteRest(false, done));
    run := run + [WriteRest(false, done)];
  }

  /** A run that finishes leaves the image on the disk, and only then is the kept one removed by it. */
  lemma FinishedMeansWritten(disk: Image, run: seq<Action>)
    ensures var w := After(disk, run);
            var v := Step(w, Remove);
            v != w ==> w.kept == Some(w.img) && v.kept.None? && v.whole == v.disk
                       && 0 < |w.img| <= |w.disk| && v.disk[0] == w.img[0] && Matches(v)
  {
    RunKeeps(disk, run);
  }

  lemma KeptStep(w: World, a: Action)
    requires w.stage == Idle && w.kept.Some?
    ensures var v := Step(w, a);
            if a == Move then w.kept.value in v.moved else v.kept == w.kept && v.stage == Idle
  {}

  lemma MovedStep(w: World, a: Action, o: Image)
    requires o in w.moved
    ensures o in Step(w, a).moved
  {}

  /** A kept image between runs is changed by no number of further ones: each is refused, and
      only the user's move takes it, into their own hands. */
  lemma {:induction false} KeptStays(w: World, run: seq<Action>)
    requires w.stage == Idle && w.kept.Some?
    ensures Move !in run ==> Play(w, run).kept == w.kept && Play(w, run).stage == Idle
    ensures Move in run ==> w.kept.value in Play(w, run).moved
    decreases |run|
  {
    if run == [] {
      Nothing(w);
    } else {
      var front, a := run[..|run| - 1], run[|run| - 1];
      assert run == front + [a] && (Move in run <==> Move in front || a == Move);
      hide *;
      KeptStays(w, front);
      Took(w, front, a);
      if Move in front {
        MovedStep(Play(w, front), a, w.kept.value);
      } else {
        KeptStep(Play(w, front), a);
      }
    }
  }

  /** A refusal before the disk is touched removes the image exactly when it comes
      in the block that builds it; one after it, while the files to write are
      staged, leaves the image though the disk is as it was. */
  lemma RefusedUntouched(disk: Image, run: seq<Action>, a: Action)
    requires a.BuildFails? || a.StageFails? || (a.WriteBlank? && !a.ok && !a.took)
    requires After(disk, run).stage != Idle && Step(After(disk, run), a).stage == Idle
    ensures var w := After(disk, run);
            var v := Step(w, a);
            && v.disk == w.disk == w.whole && !v.begun
            && (v.kept.None? <==> w.stage == Building)
            && (v.kept.Some? ==> v.kept == Some(w.img) && forall image :: Step(v, Start(image)) == v)
  {
    RunKeeps(disk, run);
  }

  /** So the next run is refused over a disk nothing was written to. */
  lemma LeftThoughUntouched(disk: Image, image: Image)
    requires 0 < |image| <= |disk| && image[0] != BLANK
    ensures var w := After(disk, [Start(image), Complete, StageFails]);
            w.disk == disk && w.owed == [] && w.kept == Some(image) && Step(w, Start(image)) == w
  {
    var w := Begin(disk);
    Nothing(w);
    Took(w, [], Start(image));
    Took(w, [Start(image)], Complete);
    Took(w, [Start(image), Complete], StageFails);
    hide Play;
    assert [] + [Start(image)] == [Start(image)] && [Start(image)] + [Complete] == [Start(image), Complete];
    assert [Start(image), Complete] + [StageFails] == [Start(image), Complete, StageFails];
  }

  // When every write takes, the order of the steps is enough: no system write can
  // come between a write and its read-back.

  predicate Healthy(w: World, a: Action) {
    match a
    case WriteBlank(ok, took) => ok && took
    case WriteTail(ok, done) => ok && forall k :: 0 <= k < |w.disk| ==> k in done
    case WriteRest(ok, done) => ok && forall k :: 0 <= k < |w.img| ==> k in done
    case WriteMbr(ok, took) => ok && took
    case ReadBack(ok) => ok
    case ReadMbr(ok) => ok
    case _ => true
  }

  ghost predicate HealthyRun(disk: Image, run: seq<Action>)
    decreases |run|
  {
    run == [] || (HealthyRun(disk, run[..|run| - 1]) && Healthy(After(disk, run[..|run| - 1]), run[|run| - 1]))
  }

  ghost predicate OnCourse(w: World) {
    && (w.stage == Written ==> 0 < |w.img| <= |w.disk| && w.disk[..|w.img|] == Headless(w.img))
    && (w.stage == Exposed ==> w.disk != [] && w.img != [] && w.disk[0] == w.img[0])
    && (w.stage in {Blanked, Tailed, Written} ==> w.blanked)
    && (Writing(w.stage) && w.stage != Blanked ==> TailClear(w))
  }

  /** Nothing of what was in the last 2048 sectors is left past the image, but for what the system wrote. */
  ghost predicate TailClear(w: World) {
    forall k :: |w.img| <= k < |w.disk| && |w.disk| - 2048 <= k && k !in w.foreign ==> w.disk[k] == BLANK
  }

  lemma HealthyWrite(w: World, a: Action)
    requires Inv(w) && OnCourse(w) && Healthy(w, a) && (a.WriteTail? || a.WriteRest?)
    ensures OnCourse(Step(w, a))
  {
    var v := Step(w, a);
    hide Settled, Covered, Guarded;
    if w.stage == Tailed && a.WriteRest? {
      assert forall k :: 0 <= k < |w.img| ==> v.disk[..|w.img|][k] == Headless(w.img)[k];
    }
  }

  lemma HealthyStep(w: World, a: Action)
    requires Inv(w) && OnCourse(w) && Healthy(w, a)
    ensures OnCourse(Step(w, a))
  {
    if a.WriteTail? || a.WriteRest? {
      hide *;
      HealthyWrite(w, a);
    } else {
      hide Settled, Covered, Guarded;
    }
  }

  lemma {:induction false} StaysOnCourse(disk: Image, run: seq<Action>)
    requires HealthyRun(disk, run)
    ensures OnCourse(After(disk, run))
    decreases |run|
  {
    if run != [] {
      StaysOnCourse(disk, run[..|run| - 1]);
      RunKeeps(disk, run[..|run| - 1]);
      HealthyStep(After(disk, run[..|run| - 1]), run[|run| - 1]);
    }
  }

  ghost predicate ReadsBack(w: World) {
    && (w.stage == Written ==> Step(w, ReadBack(true)).stage == Checked)
    && (w.stage == Exposed ==> Step(w, ReadMbr(true)).stage == Verified)
    && (w.stage == Verified ==> Step(w, Remove).stage == Idle && Step(w, Remove).kept.None?)
  }

  lemma OnCourseReadsBack(w: World)
    requires Inv(w) && OnCourse(w)
    ensures ReadsBack(w)
  {
    hide Matches, Settled, Guarded, Has;
  }

  /** Both read-backs then succeed, whatever the system writes whenever it sees a table. */
  lemma HealthyReadsBack(disk: Image, run: seq<Action>)
    requires HealthyRun(disk, run)
    ensures ReadsBack(After(disk, run))
  {
    hide *;
    StaysOnCourse(disk, run);
    RunKeeps(disk, run);
    OnCourseReadsBack(After(disk, run));
  }

  /** The image on the disk, nothing old in the last 2048 sectors, the disk as it was between, and nothing kept. */
  ghost predicate Finished(w: World, was: Image) {
    && w.stage == Idle && w.kept.None? && 0 < |w.img| <= |w.disk| == |was| && w.disk[0] == w.img[0] && Matches(w)
    && TailClear(w)
    && forall k :: |w.img| <= k < |w.disk| - 2048 && k !in w.foreign ==> w.disk[k] == was[k]
  }

  lemma OnCourseFinishes(w: World)
    requires Inv(w) && OnCourse(w) && Beyond(w) && w.stage == Verified
    ensures Finished(Step(w, Remove), w.whole)
  {
    hide Settled, Has, TailStart;
  }

  /** And a healthy run that gets there finishes so. */
  lemma HealthyFinish(disk: Image, run: seq<Action>)
    requires HealthyRun(disk, run) && After(disk, run).stage == Verified
    ensures Finished(Step(After(disk, run), Remove), After(disk, run).whole)
  {
    hide *;
    StaysOnCourse(disk, run);
    RunKeeps(disk, run);
    BeyondTheImage(disk, run);
    OnCourseFinishes(After(disk, run));
  }

  // One run, as the script takes it.

  /** How each step of a run goes: whether it returns, and which sectors a write changes. */
  datatype Faults = Faults(built: bool, staged: bool, blank: (bool, bool), tail: (bool, set<nat>),
                           rest: (bool, set<nat>), back: bool, mbr: (bool, bool), mbrBack: bool)

  /** Every step returns, and every write of the image's own sectors takes. */
  ghost predicate NoFault(f: Faults, size: nat) {
    && f.built && f.staged && f.blank.0 && f.tail.0 && f.rest.0 && f.back && f.mbr == (true, true) && f.mbrBack
    && forall k :: 0 <= k < size ==> k in f.rest.1
  }

  /** Past the first `size` sectors the disk is as it was, but that those of `zeroed` in the last 2048 are blank. */
  ghost predicate PastImage(was: Image, now: Image, size: nat, zeroed: set<nat>) {
    && |now| == |was|
    && forall k :: size <= k < |was| ==> now[k] == if |was| - 2048 <= k && k in zeroed then BLANK else was[k]
  }

  /** The world of a run so far, seen from the script's side. */
  ghost predicate Sees(w: World, run: seq<Action>, disk: Image, kept: Option<Image>, stage: Stage) {
    Play(w, run).disk == disk && Play(w, run).kept == kept && Play(w, run).stage == stage
  }

  // What each step of the script does to the world, as far as the script can see it.

  lemma StartGoes(w: World, image: Image)
    requires w.stage == Idle
    ensures var v := Step(w, Start(image));
            v.disk == w.disk && v.kept == w.kept &&
            if w.kept.Some? then v.stage == Idle else v.stage == Building && v.img == image
  {}

  lemma StageGoes(w: World)
    requires w.stage == Building && 0 < |w.img| <= |w.disk| && w.img[0] != BLANK
    ensures var v := Step(w, Complete);
            && v == w.(kept := Some(w.img), stage := Staged)
            && Step(v, StageFails) == v.(stage := Idle)
  {}

  lemma FailGoes(w: World)
    requires w.stage == Building
    ensures Step(w, BuildFails) == w.(kept := None, stage := Idle)
  {}

  lemma BlankGoes(w: World, ok: bool, took: bool)
    requires w.stage == Staged && w.disk != []
    ensures var v := Step(w, WriteBlank(ok, took));
            && v.disk == (if took then w.disk[0 := BLANK] else w.disk) && v.kept == w.kept && v.img == w.img
            && (ok ==> v.owed != []) && v.stage == if ok then Blanked else Idle
  {}

  lemma TailGoes(w: World, ok: bool, done: set<nat>)
    requires w.stage == Blanked
    ensures var v, at := Step(w, WriteTail(ok, done)), TailStart(|w.img|, |w.disk|);
            && v.disk == (if at < |w.disk| then Patch(w.disk, at, Zeros(|w.disk| - at), done) else w.disk)
            && v.kept == w.kept && v.img == w.img && v.owed == w.owed
            && v.stage == if at < |w.disk| && !ok then Idle else Tailed
  {}

  lemma RestGoes(w: World, ok: bool, done: set<nat>)
    requires w.stage == Tailed && w.img != []
    ensures var v := Step(w, WriteRest(ok, done));
            && v.disk == Patch(w.disk, 0, Headless(w.img), done) && v.kept == w.kept && v.img == w.img
            && v.owed == w.owed && v.stage == if ok then Written else Idle
  {}

  lemma BackGoes(w: World, ok: bool)
    requires w.stage == Written && 0 < |w.img| <= |w.disk|
    ensures var v := Step(w, ReadBack(ok));
            && v.disk == w.disk && v.kept == w.kept && v.img == w.img && v.owed == w.owed
            && v.stage == if ok && w.disk[..|w.img|] == Headless(w.img) then Checked else Idle
  {}

  lemma MbrGoes(w: World, ok: bool, took: bool)
    requires w.stage == Checked && 0 < |w.img| <= |w.disk|
    ensures var v := Step(w, WriteMbr(ok, took));
            && v.disk == (if took then w.disk[0 := w.img[0]] else w.disk) && v.kept == w.kept && v.img == w.img
            && v.owed == w.owed && v.stage == if ok then Exposed else Idle
  {}

  lemma MbrBackGoes(w: World, ok: bool)
    requires w.stage == Exposed && 0 < |w.img| <= |w.disk|
    ensures var v := Step(w, ReadMbr(ok));
            && v.disk == w.disk && v.kept == w.kept && v.owed == w.owed
            && v.stage == if ok && w.disk[0] == w.img[0] then Verified else Idle
  {}

  lemma RemoveGoes(w: World)
    requires w.stage == Verified && w.owed != []
    ensures var v := Step(w, Remove);
            v.disk == w.disk && v.kept == None && v.stage == Idle
  {}

  class Stick {
    var disk: Image
    var kept: Option<Image>

    constructor (disk: Image)
      ensures this.disk == disk && kept == None
    {
      this.disk, kept := disk, None;
    }

    /** Each way out is a run of the machine above, ending idle, so that all it keeps is
        kept here. It ends well exactly by removing the kept image, after every step in its
        order, and then the image is on the disk. It ends badly over an untouched disk, or
        with the image kept whole. */
    method Write(image: Image, f: Faults, ghost w: World) returns (ok: bool, ghost run: seq<Action>)
      requires image != [] && image[0] != BLANK
      requires w.stage == Idle && w.disk == disk && w.kept == kept
      modifies this
      ensures Sees(w, run, disk, kept, Idle) && (Inv(w) ==> Inv(Play(w, run)))
      ensures old(kept.Some?) ==> !ok && disk == old(disk) && kept == old(kept)
      ensures NoFault(f, |image|) && old(kept.None?) && |image| <= old(|disk|) ==> ok
      ensures ok ==> |run| == 9 && run[8] == Remove && kept == None
      ensures ok ==> |image| <= |disk| && disk[..|image|] == image
      ensures PastImage(old(disk), disk, |image|, f.tail.1) || (!ok && PastImage(old(disk), disk, |image|, {}))
      ensures !ok ==> disk == old(disk) || kept == Some(image)
    {
      hide Play, Step, Inv, PastImage;
      PastNothing(disk, |image|);
      run := [] + [Start(image)];
      Nothing(w);
      Took(w, [], Start(image));
      StartGoes(w, image);
      ghost var v := Play(w, run);
      if kept.Some? {
        ok := false;
      } else if !f.built || |image| > |disk| {
        FailGoes(v);
        Took(w, run, BuildFails);
        ok, run := false, run + [BuildFails];
      } else {
        ghost var more;
        ok, more := StageAndWrite(image, f, v);
        PlayMore(w, run, more);
        run := run + more;
      }
      if Inv(w) { PlayKeeps(w, run); }
    }

    /** The image completed, and then the disk. */
    method StageAndWrite(image: Image, f: Faults, ghost w: World) returns (ok: bool, ghost run: seq<Action>)
      requires 0 < |image| <= |disk| && image[0] != BLANK && kept == None
      requires w.stage == Building && w.disk == disk && w.kept == kept && w.img == image
      modifies this
      ensures NoFault(f, |image|) ==> ok
      ensures Sees(w, run, disk, kept, Idle)
      ensures ok ==> |run| == 8 && run[7] == Remove && kept == None && |image| <= |disk| && disk[..|image|] == image
      ensures PastImage(old(disk), disk, |image|, f.tail.1) || (!ok && PastImage(old(disk), disk, |image|, {}))
      ensures !ok ==> kept == Some(image)
    {
      hide Play, Step, PastImage;
      PastNothing(disk, |image|);
      run := [] + [Complete];
      Nothing(w);
      Took(w, [], Complete);
      StageGoes(w);
      kept := Some(image);
      if !f.staged {
        Took(w, run, StageFails);
        return false, run + [StageFails];
      }
      ghost var v, more := Play(w, run), [];
      ok, more := WriteDisk(image, f, v);
      PlayMore(w, run, more);
      run := run + more;
    }

    /** The writes and the read-backs, the image staged. */
    method WriteDisk(image: Image, f: Faults, ghost w: World) returns (ok: bool, ghost run: seq<Action>)
      requires 0 < |image| <= |disk| && kept == Some(image)
      requires w.stage == Staged && w.disk == disk && w.kept == kept && w.img == image
      modifies this
      ensures NoFault(f, |image|) ==> ok
      ensures Sees(w, run, disk, kept, Idle)
      ensures ok ==> |run| == 7 && run[6] == Remove && kept == None && |image| <= |disk| && disk[..|image|] == image
      ensures PastImage(old(disk), disk, |image|, f.tail.1) || (!ok && PastImage(old(disk), disk, |image|, {}))
      ensures !ok ==> kept == Some(image)
    {
      hide Play, Step, PastImage;
      ghost var was := disk;
      ok, run := WriteHeadless(image, f, w);
      if ok {
        ghost var mid := disk;
        ghost var v, more := Play(w, run), [];
        ok, more := Expose(image, f, v);
        PastSame(was, mid, disk, |image|, f.tail.1);
        PlayMore(w, run, more);
        run := run + more;
      }
    }

    method WriteHeadless(image: Image, f: Faults, ghost w: World) returns (ok: bool, ghost run: seq<Action>)
      requires 0 < |image| <= |disk| && kept == Some(image)
      requires w.stage == Staged && w.disk == disk && w.kept == kept && w.img == image
      modifies this`disk
      ensures NoFault(f, |image|) ==> ok && |image| <= |disk| && disk[..|image|] == Headless(image)
      ensures Sees(w, run, disk, kept, if ok then Written else Idle) && |disk| == old(|disk|)
      ensures PastImage(old(disk), disk, |image|, f.tail.1) || (!ok && PastImage(old(disk), disk, |image|, {}))
      ensures ok ==> |run| == 3 && Play(w, run).img == image && Play(w, run).owed != []
    {
      hide Play, Step, Patch, Zeros, TailStart, PastImage;
      ghost var was := disk;
      if f.blank.1 { disk := disk[0 := BLANK]; }
      run := [] + [WriteBlank(f.blank.0, f.blank.1)];
      Nothing(w);
      Took(w, [], WriteBlank(f.blank.0, f.blank.1));
      BlankGoes(w, f.blank.0, f.blank.1);
      PastBlank(was, disk, |image|);
      ghost var blanked := disk;
      if !f.blank.0 { return false, run; }
      var at := TailStart(|image|, |disk|);
      TailGoes(Play(w, run), f.tail.0, f.tail.1);
      if at < |disk| { disk := Patch(disk, at, Zeros(|disk| - at), f.tail.1); }
      Took(w, run, WriteTail(f.tail.0, f.tail.1));
      run := run + [WriteTail(f.tail.0, f.tail.1)];
      PastTail(was, blanked, disk, |image|, f.tail.1);
      ghost var tailed := disk;
      if at < |disk| && !f.tail.0 { return false, run; }
      RestGoes(Play(w, run), f.rest.0, f.rest.1);
      disk := Patch(disk, 0, Headless(image), f.rest.1);
      Took(w, run, WriteRest(f.rest.0, f.rest.1));
      run := run + [WriteRest(f.rest.0, f.rest.1)];
      PastRest(was, tailed, disk, image, f.rest.1, f.tail.1);
      if NoFault(f, |image|) { RestTaken(tailed, image, f.rest.1); }
      ok := f.rest.0;
    }

    method Expose(image: Image, f: Faults, ghost w: World) returns (ok: bool, ghost run: seq<Action>)
      requires 0 < |image| <= |disk| && kept == Some(image)
      requires w.stage == Written && w.disk == disk && w.kept == kept && w.img == image && w.owed != []
      modifies this
      ensures disk == old(disk) || disk == old(disk)[0 := image[0]]
      ensures NoFault(f, |image|) && old(disk)[..|image|] == Headless(image) ==> ok
      ensures Sees(w, run, disk, kept, Idle)
      ensures ok ==> |run| == 4 && run[3] == Remove && kept == None && |image| <= |disk| && disk[..|image|] == image
      ensures !ok ==> kept == Some(image)
    {
      hide Play, Step;
      run := [] + [ReadBack(f.back)];
      Nothing(w);
      Took(w, [], ReadBack(f.back));
      BackGoes(w, f.back);
      if !f.back || disk[..|image|] != Headless(image) { return false, run; }
      ghost var v := Play(w, run);
      if f.mbr.1 { disk := disk[0 := image[0]]; }
      MbrGoes(v, f.mbr.0, f.mbr.1);
      Took(w, run, WriteMbr(f.mbr.0, f.mbr.1));
      run := run + [WriteMbr(f.mbr.0, f.mbr.1)];
      if !f.mbr.0 { return false, run; }
      MbrBackGoes(Play(w, run), f.mbrBack);
      Took(w, run, ReadMbr(f.mbrBack));
      run := run + [ReadMbr(f.mbrBack)];
      if !f.mbrBack || disk[0] != image[0] { return false, run; }
      Uncovered(v.disk, disk, image);
      RemoveGoes(Play(w, run));
      kept := None;
      Took(w, run, Remove);
      run := run + [Remove];
      ok := true;
    }
  }

  lemma PastNothing(disk: Image, size: nat)
    ensures PastImage(disk, disk, size, {})
  {}

  lemma PastBlank(was: Image, now: Image, size: nat)
    requires was != [] && size > 0 && (now == was || now == was[0 := BLANK])
    ensures PastImage(was, now, size, {})
  {}

  lemma PastTail(was: Image, mid: Image, now: Image, size: nat, done: set<nat>)
    requires PastImage(was, mid, size, {})
    requires var at := TailStart(size, |mid|);
             now == if at < |mid| then Patch(mid, at, Zeros(|mid| - at), done) else mid
    ensures PastImage(was, now, size, done)
  {}

  lemma PastRest(was: Image, mid: Image, now: Image, image: Image, done: set<nat>, zeroed: set<nat>)
    requires image != [] && PastImage(was, mid, |image|, zeroed) && now == Patch(mid, 0, Headless(image), done)
    ensures PastImage(was, now, |image|, zeroed)
  {}

  lemma RestTaken(was: Image, image: Image, done: set<nat>)
    requires 0 < |image| <= |was| && forall k :: 0 <= k < |image| ==> k in done
    ensures Patch(was, 0, Headless(image), done)[..|image|] == Headless(image)
  {}

  lemma PastSame(was: Image, mid: Image, now: Image, size: nat, zeroed: set<nat>)
    requires PastImage(was, mid, size, zeroed) && size > 0 && mid != [] && |now| == |mid|
    requires now == mid || now == mid[0 := now[0]]
    ensures PastImage(was, now, size, zeroed)
  {}

  /** A disk that read back headless, with the image's first sector now in place. */
  lemma Uncovered(was: Image, disk: Image, image: Image)
    requires 0 < |image| <= |was| && was[..|image|] == Headless(image)
    requires (disk == was || disk == was[0 := image[0]]) && disk[0] == image[0]
    ensures disk[..|image|] == image
  {
    assert forall k :: 0 < k < |image| ==> disk[k] == was[..|image|][k] == image[k];
  }
}
