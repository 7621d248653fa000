/**
  The `__main__` loop of `preprocessing/oasis3_preprocessing.py` as the program runs it: the
  file system, the folders and the three `earliest_*` variables are updated statement by
  statement, a session without an image is skipped, and a statement that raises ends the
  run.  Each method is proved to compute exactly its specification in `Preprocessing`.
*/
module PreprocessingLoop {
  import opened Wrappers
  import opened Paths
  import opened Loops
  import opened Preprocessing

  /** The body of the session loop for the session at position `i`. */
  method VisitSession(cfg: Config, st0: RunState, subject: string, session: string, i: nat) returns (st: RunState)
    requires st0.status.Running? && Coherent(st0.carry)
    ensures st == ProcessSession(cfg, st0, subject, session, i)
    ensures Coherent(st.carry)
  {
    var files := st0.world.files;
    var dirs := st0.world.dirs;
    var sessionOut := SessionDir(cfg, subject, session);
    if sessionOut in files {
      return Abort(st0, st0.world, NotADir(sessionOut));
    }
    dirs := dirs + {sessionOut};

    var imgPath := FindT1wImage(subject, session, cfg.dataDir, files.Keys + dirs);
    if imgPath.None? {
      return st0.(world := World(files, dirs), log := st0.log + [Visit(subject, session, i, NoImage)]);
    }
    var src := imgPath.value;
    if src !in files {
      return Abort(st0, World(files, dirs), NotAFile(src));
    }
    var name := Name(src);
    var rawCopy := sessionOut + [name];
    files := files[rawCopy := files[src]];
    if !files[rawCopy].ImageFile? {
      return Abort(st0, World(files, dirs), NotAnImage(rawCopy));
    }
    var img := files[rawCopy].image;

    if i == 0 {
      var reg := Register(MniTemplate, Denoised(img));
      files := files[OutputPath(cfg, subject, session, name, MniSuffix) := ImageFile(reg.warped)];
      files := files[OutputPath(cfg, subject, session, name, TransformSuffix) := TransformFile(reg.fwdTransforms[0])];
      var maskPath := OutputPath(cfg, subject, session, name, MaskSuffix);
      if !(maskPath in files || maskPath in dirs) && cfg.betWritesMask(img) {
        files := files[maskPath := ImageFile(BetMask(img))];
      }
      if !(maskPath in files || maskPath in dirs) {
        return Abort(st0, World(files, dirs), MaskNotFound(maskPath));
      }
      if maskPath !in files || !files[maskPath].ImageFile? {
        return Abort(st0, World(files, dirs), NotAnImage(maskPath));
      }
      var mask := files[maskPath].image;
      var corrected := BiasCorrected(Masked(img, mask));
      files := files[OutputPath(cfg, subject, session, name, CorrectedSuffix) := ImageFile(corrected)];
      // `earliest_img`, the registration and the mask are only read by later sessions, and
      // an exception in between ends the run, so they are set together here.
      st := RunState(World(files, dirs), Carry(Some(img), Some(reg), Some(mask)),
                     st0.log + [Visit(subject, session, i, Reference(corrected))], Running);
    } else {
      if st0.carry.earliestImg.None? {
        return Abort(st0, World(files, dirs), NoReferenceImage(subject, session));
      }
      var reg := Register(st0.carry.earliestImg.value, img);
      var combined := st0.carry.earliestReg.value.fwdTransforms + reg.fwdTransforms;
      var inMni := Resampled(img, MniTemplate, combined);
      var brain := Masked(inMni, st0.carry.earliestMask.value);
      var corrected := BiasCorrected(brain);
      files := files[OutputPath(cfg, subject, session, name, CorrectedSuffix) := ImageFile(corrected)];
      st := RunState(World(files, dirs), st0.carry, st0.log + [Visit(subject, session, i, FollowUp(corrected))], Running);
    }
  }

  /** The body of the subject loop: the output folder, the reset, then the session loop. */
  method VisitSubject(cfg: Config, st0: RunState, subject: string, sessions: seq<string>) returns (st: RunState)
    requires st0.status.Running? && Coherent(st0.carry)
    ensures st == ProcessSubject(cfg, st0, subject, sessions)
    ensures st.status.Running? ==> Coherent(st.carry)
  {
    var subjectOut := SubjectDir(cfg, subject);
    if subjectOut in st0.world.files {
      st := st0.(status := Aborted(NotADir(subjectOut)));
      StoppedStays(SessionStep(cfg, subject), IsAborted, st, sessions, 0, |sessions|);
      return;
    }
    st := st0.(world := st0.world.(dirs := st0.world.dirs + {subjectOut}));
    st := st.(carry := st.carry.(earliestImg := None));
    ghost var entered := st;
    for i := 0 to |sessions|
      invariant st == RunSessions(cfg, entered, subject, sessions, i)
      invariant st.status.Running? && Coherent(st.carry)
    {
      st := VisitSession(cfg, st, subject, sessions[i], i);
      if st.status.Aborted? {
        StoppedStays(SessionStep(cfg, subject), IsAborted, entered, sessions, i + 1, |sessions|);
        return;
      }
    }
  }

  /** Everything from `save_root.mkdir` to the end of the subject loop. */
  method RunPipeline(cfg: Config, rows: seq<SessionRow>, w0: World) returns (st: RunState)
    ensures st == Run(cfg, rows, w0)
  {
    var subjects := Plan(rows);
    if exists k :: 1 <= k <= |cfg.saveRoot| && cfg.saveRoot[..k] in w0.files {
      st := RunState(w0, Carry(None, None, None), [], Aborted(NotADir(cfg.saveRoot)));
      assert st == Initial(cfg, w0);
      StoppedStays(SubjectStep(cfg), IsAborted, st, subjects, 0, |subjects|);
      return;
    }
    st := RunState(w0.(dirs := w0.dirs + Ancestors(cfg.saveRoot)), Carry(None, None, None), [], Running);
    assert st == Initial(cfg, w0);
    ghost var start := st;
    for k := 0 to |subjects|
      invariant st == RunSubjects(cfg, start, subjects, k)
      invariant st.status.Running? && Coherent(st.carry)
    {
      st := VisitSubject(cfg, st, subjects[k].0, subjects[k].1);
      if st.status.Aborted? {
        StoppedStays(SubjectStep(cfg), IsAborted, start, subjects, k + 1, |subjects|);
        return;
      }
    }
  }
}
