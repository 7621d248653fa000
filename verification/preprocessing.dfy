/**
  The longitudinal normalisation loop of `preprocessing/oasis3_preprocessing.py` as a
  specification: pure functions from the state before a step to the state after it.

  ANTs and hd-bet are uninterpreted: every image the script produces is a term that records
  which operation made it from which inputs (denoising, affine registration, resampling
  through a transform list, hd-bet's mask, masking, N4 bias correction).  The file system is
  a map from paths to file contents plus a set of directories.  A Python exception ends the
  whole run; it is the `Aborted` status, and what was written before it stays written.
*/
module Preprocessing {
  import opened Wrappers
  import opened Ordering
  import opened Paths
  import opened Loops

  // ---------------------------------------------------------------- images and transforms

  /** The grid an image lives on: the subject's own scanner space or the MNI template's. */
  datatype Space = Native | Template

  datatype Image =
    | Scan(source: Path)                                        // a volume as acquired
    | MniTemplate                                               // MNI152_T1_1mm, read once
    | Denoised(src: Image)                                      // ants.denoise_image(img, get_mask(img))
    | Warped(moving: Image, fixed: Image)                       // registration["warpedmovout"]
    | Resampled(moving: Image, fixed: Image, chain: seq<Transform>)  // ants.apply_transforms
    | BetMask(src: Image)                                       // hd-bet's brain mask of a volume
    | Masked(src: Image, mask: Image)                           // ants.mask_image
    | BiasCorrected(src: Image)                                 // ants.n4_bias_field_correction

  /** An affine transform estimated by registering `moving` onto `fixed`. */
  datatype Transform = Affine(fixed: Image, moving: Image)

  /** The two fields of `ants.registration(...)`'s result the script reads. */
  datatype Registration = Registration(warped: Image, fwdTransforms: seq<Transform>)

  /** `ants.registration(fixed, moving, type_of_transform="Affine")`. */
  function Register(fixed: Image, moving: Image): Registration {
    Registration(Warped(moving, fixed), [Affine(fixed, moving)])
  }

  /** The grid an image is sampled on: resampling moves it onto the fixed image's grid. */
  function SpaceOf(img: Image): Space {
    match img
    case Scan(_) => Native
    case MniTemplate => Template
    case Denoised(s) => SpaceOf(s)
    case Warped(_, f) => SpaceOf(f)
    case Resampled(_, f, _) => SpaceOf(f)
    case BetMask(s) => SpaceOf(s)
    case Masked(s, _) => SpaceOf(s)
    case BiasCorrected(s) => SpaceOf(s)
  }

  /** How many interpolations the voxel values of `img` went through. */
  function Resamplings(img: Image): nat {
    match img
    case Scan(_) => 0
    case MniTemplate => 0
    case Denoised(s) => Resamplings(s)
    case Warped(m, _) => 1 + Resamplings(m)
    case Resampled(m, _, _) => 1 + Resamplings(m)
    case BetMask(s) => Resamplings(s)
    case Masked(s, _) => Resamplings(s)
    case BiasCorrected(s) => Resamplings(s)
  }

  // ---------------------------------------------------------------- the file system

  datatype Blob = ImageFile(image: Image) | TransformFile(transform: Transform)

  datatype World = World(files: map<Path, Blob>, dirs: set<Path>)

  /** Everything `rglob` and `Path.exists()` can see: files and directories. */
  function Entries(w: World): set<Path> {
    w.files.Keys + w.dirs
  }

  predicate Exists(w: World, p: Path) {
    p in w.files || p in w.dirs
  }

  /**
    The run's fixed inputs: the raw data root, `--save_root`, and what hd-bet does: given the
    volume in its input file it either writes a mask (`true`) or exits without one.
  */
  datatype Config = Config(dataDir: Path, saveRoot: Path, betWritesMask: Image -> bool)

  // ---------------------------------------------------------------- file names

  /** `name.replace(s, "")` for a non-empty `s`: every non-overlapping occurrence, left to right. */
  function RemoveAll(name: string, s: string): (r: string)
    requires s != []
    ensures |r| <= |name|
    decreases |name|
  {
    if |name| < |s| then name
    else if name[..|s|] == s then RemoveAll(name[|s|..], s)
    else [name[0]] + RemoveAll(name[1..], s)
  }

  function Stem(name: string): string {
    RemoveAll(name, ".nii.gz")
  }

  const MniSuffix: string := "_MNI.nii.gz"
  const TransformSuffix: string := "_MNI.mat"
  const MaskSuffix: string := "_MNI_bet_bet.nii.gz"
  const CorrectedSuffix: string := "_N4_in_MNI.nii.gz"

  function SubjectDir(cfg: Config, subject: string): Path {
    cfg.saveRoot + [subject]
  }

  function SessionDir(cfg: Config, subject: string, session: string): Path {
    cfg.saveRoot + [subject, session]
  }

  /** An output of the session: `session_out / f"{img_basename}{suffix}"`. */
  function OutputPath(cfg: Config, subject: string, session: string, name: string, suffix: string): Path {
    SessionDir(cfg, subject, session) + [Stem(name) + suffix]
  }

  /** `save_root` and, because of `parents=True`, every ancestor of it. */
  function Ancestors(p: Path): set<Path> {
    set k | 1 <= k <= |p| :: p[..k]
  }

  // ---------------------------------------------------------------- find_t1w_image

  /**
    `find_t1w_image`: the smallest path, in `pathlib` order, below `data_dir / subject` whose
    name matches `{subject}_{session}*T1w.nii.gz`, or `None` when nothing matches.
  */
  function FindT1wImage(subject: string, session: string, dataDir: Path, entries: set<Path>): (r: Option<Path>)
    ensures r.Some? ==> r.value in entries && IsT1wMatch(r.value, dataDir + [subject], subject, session)
  {
    FirstT1w(entries, dataDir + [subject], subject, session)
  }

  /**
    Walks `entries` in ascending `pathlib` order and stops at the first one below `subjectDir`
    whose name matches the pattern; `FindT1wImageIsSortedHead` shows this is `sorted(matches)[0]`.
  */
  function FirstT1w(entries: set<Path>, subjectDir: Path, subject: string, session: string): (r: Option<Path>)
    ensures r.Some? ==> r.value in entries && IsT1wMatch(r.value, subjectDir, subject, session)
    decreases entries
  {
    if entries == {} then None
    else
      PathLeTotalOrder();
      var p := Least(entries, PathLe);
      if IsT1wMatch(p, subjectDir, subject, session) then Some(p)
      else FirstT1w(entries - {p}, subjectDir, subject, session)
  }

  /** `find_t1w_image` returns `sorted(matches)[0]` when there are matches and `None` otherwise. */
  lemma FindT1wImageIsSortedHead(subject: string, session: string, dataDir: Path, entries: set<Path>)
    ensures var r := FindT1wImage(subject, session, dataDir, entries);
            var matches := T1wMatches(entries, dataDir + [subject], subject, session);
            && (r.None? <==> matches == {})
            && (r.Some? ==> IsLeast(r.value, matches, PathLe))
  {
    FirstT1wIsLeastMatch(entries, dataDir + [subject], subject, session);
  }

  lemma {:induction false} FirstT1wIsLeastMatch(entries: set<Path>, subjectDir: Path, subject: string, session: string)
    ensures var r := FirstT1w(entries, subjectDir, subject, session);
            var matches := T1wMatches(entries, subjectDir, subject, session);
            && (r.None? <==> matches == {})
            && (r.Some? ==> IsLeast(r.value, matches, PathLe))
    decreases entries
  {
    var matches := T1wMatches(entries, subjectDir, subject, session);
    if entries != {} {
      PathLeTotalOrder();
      var p := Least(entries, PathLe);
      if IsT1wMatch(p, subjectDir, subject, session) {
        forall x | x in matches
          ensures PathLe(p, x)
        {
          LeastIsBelow(p, entries, PathLe, x);
        }
        assert p in matches;
        assert IsLeast(p, matches, PathLe);
      } else {
        FirstT1wIsLeastMatch(entries - {p}, subjectDir, subject, session);
        assert T1wMatches(entries - {p}, subjectDir, subject, session) == matches;
      }
    }
  }

  // ---------------------------------------------------------------- run state

  /**
    The loop's cross-iteration variables.  Only `earliestImg` is reset per subject; the
    registration and mask of an earlier subject stay in scope.
  */
  datatype Carry = Carry(earliestImg: Option<Image>, earliestReg: Option<Registration>, earliestMask: Option<Image>)

  /** Once a reference image is set, its MNI registration and its mask were set with it. */
  predicate Coherent(c: Carry) {
    c.earliestImg.Some? ==>
      && c.earliestReg == Some(Register(MniTemplate, Denoised(c.earliestImg.value)))
      && c.earliestMask.Some?
  }

  /** What happened to one session: skipped, or the corrected image written for it. */
  datatype Kind = NoImage | Reference(out: Image) | FollowUp(out: Image)

  datatype Event = Visit(subject: string, session: string, position: nat, kind: Kind)

  datatype Failure =
    | NotADir(path: Path)                             // Path.mkdir(exist_ok=True) where a file is
    | NotAFile(path: Path)                            // shutil.copyfile on a directory
    | NotAnImage(path: Path)                          // ants.image_read on something else
    | MaskNotFound(path: Path)                        // the FileNotFoundError of the reference branch
    | NoReferenceImage(subject: string, session: string)  // ants.registration(fixed=None, ...)

  datatype Status = Running | Aborted(failure: Failure)

  datatype RunState = RunState(world: World, carry: Carry, log: seq<Event>, status: Status)

  function Abort(st: RunState, w: World, f: Failure): RunState {
    st.(world := w, status := Aborted(f))
  }

  // ---------------------------------------------------------------- one session

  /** The MNI-space image and the copied `.mat` transform the reference branch writes first. */
  function ReferenceArtifacts(cfg: Config, w: World, subject: string, session: string, name: string, img: Image): World {
    var reg := Register(MniTemplate, Denoised(img));
    w.(files := w.files[OutputPath(cfg, subject, session, name, MniSuffix) := ImageFile(reg.warped)]
                       [OutputPath(cfg, subject, session, name, TransformSuffix) := TransformFile(reg.fwdTransforms[0])])
  }

  /**
    hd-bet on the copied raw volume, run only when the mask file does not exist yet: an
    existing mask is never overwritten, a new one is hd-bet's mask of the volume, and no other
    entry changes.
  */
  function RunBet(cfg: Config, w: World, maskPath: Path, img: Image): (r: World)
    ensures Exists(w, maskPath) ==> r == w
    ensures Exists(r, maskPath) <==> Exists(w, maskPath) || cfg.betWritesMask(img)
    ensures !Exists(w, maskPath) && Exists(r, maskPath) ==> maskPath in r.files && r.files[maskPath] == ImageFile(BetMask(img))
    ensures r.dirs == w.dirs && r.files - {maskPath} == w.files - {maskPath}
  {
    if Exists(w, maskPath) || !cfg.betWritesMask(img) then w
    else w.(files := w.files[maskPath := ImageFile(BetMask(img))])
  }

  /** The `i == 0` branch: register to MNI, brain-extract, mask the native image, correct. */
  function ReferenceSession(cfg: Config, st: RunState, w: World, subject: string, session: string, name: string, img: Image): (r: RunState)
    ensures r.status.Aborted? ==> r.log == st.log && r.carry == st.carry
    ensures r.status.Running? ==>
      && r.carry.earliestImg == Some(img) && Coherent(r.carry)
      && |r.log| == |st.log| + 1 && r.log[..|st.log|] == st.log
      && r.log[|st.log|].kind.Reference? && r.log[|st.log|].position == 0
  {
    var reg := Register(MniTemplate, Denoised(img));
    var maskPath := OutputPath(cfg, subject, session, name, MaskSuffix);
    var w1 := RunBet(cfg, ReferenceArtifacts(cfg, w, subject, session, name, img), maskPath, img);
    if !Exists(w1, maskPath) then Abort(st, w1, MaskNotFound(maskPath))
    else if maskPath !in w1.files || !w1.files[maskPath].ImageFile? then Abort(st, w1, NotAnImage(maskPath))
    else
      var mask := w1.files[maskPath].image;
      var corrected := BiasCorrected(Masked(img, mask));
      var w2 := w1.(files := w1.files[OutputPath(cfg, subject, session, name, CorrectedSuffix) := ImageFile(corrected)]);
      RunState(w2, Carry(Some(img), Some(reg), Some(mask)), st.log + [Visit(subject, session, 0, Reference(corrected))], Running)
  }

  /**
    The follow-up branch: register to the reference, resample once through both transforms.
    Without a reference image of this subject `ants.registration(fixed=None, ...)` raises.
  */
  function FollowUpSession(cfg: Config, st: RunState, w: World, subject: string, session: string, i: nat, name: string, img: Image): (r: RunState)
    ensures r.status.Running? <==> st.carry.earliestImg.Some? && st.carry.earliestReg.Some? && st.carry.earliestMask.Some?
    ensures r.carry == st.carry
    ensures r.status.Aborted? ==> r.log == st.log
    ensures r.status.Running? ==>
      |r.log| == |st.log| + 1 && r.log == st.log + [Visit(subject, session, i, r.log[|st.log|].kind)] && r.log[|st.log|].kind.FollowUp?
  {
    match st.carry
    case Carry(Some(earliest), Some(earliestReg), Some(earliestMask)) =>
      var reg := Register(earliest, img);
      var chain := earliestReg.fwdTransforms + reg.fwdTransforms;
      var inMni := Resampled(img, MniTemplate, chain);
      var corrected := BiasCorrected(Masked(inMni, earliestMask));
      var w1 := w.(files := w.files[OutputPath(cfg, subject, session, name, CorrectedSuffix) := ImageFile(corrected)]);
      RunState(w1, st.carry, st.log + [Visit(subject, session, i, FollowUp(corrected))], Running)
    case _ => Abort(st, w, NoReferenceImage(subject, session))
  }

  /**
    One iteration of the inner loop, for the session at position `i` of the sorted list.
    `mkdir(exist_ok=True)` tolerates an existing folder but raises on an existing file.
  */
  function ProcessSession(cfg: Config, st: RunState, subject: string, session: string, i: nat): (r: RunState)
    ensures st.world.dirs <= r.world.dirs && st.world.files.Keys <= r.world.files.Keys
    ensures st.status.Running? && r.status.Aborted? ==> r.log == st.log
    ensures r.status.Running? ==> |r.log| == |st.log| + 1 && r.log == st.log + [Visit(subject, session, i, r.log[|st.log|].kind)]
  {
    var dir := SessionDir(cfg, subject, session);
    if dir in st.world.files then Abort(st, st.world, NotADir(dir))
    else
      var w := st.world.(dirs := st.world.dirs + {dir});
      match FindT1wImage(subject, session, cfg.dataDir, Entries(w))
      case None => st.(world := w, log := st.log + [Visit(subject, session, i, NoImage)])
      case Some(src) =>
        if src !in w.files then Abort(st, w, NotAFile(src))
        else
          var copy := dir + [Name(src)];
          var w1 := w.(files := w.files[copy := w.files[src]]);
          if !w1.files[copy].ImageFile? then Abort(st, w1, NotAnImage(copy))
          else if i == 0 then ReferenceSession(cfg, st, w1, subject, session, Name(src), w1.files[copy].image)
          else FollowUpSession(cfg, st, w1, subject, session, i, Name(src), w1.files[copy].image)
  }

  // ---------------------------------------------------------------- the two loops

  /** Entering a subject: create its output folder, which raises if a file is in the way, and reset `earliest_img`. */
  function EnterSubject(cfg: Config, st: RunState, subject: string): (r: RunState)
    ensures r.log == st.log && r.world.files == st.world.files && st.world.dirs <= r.world.dirs
    ensures r.status.Running? <==> st.status.Running? && SubjectDir(cfg, subject) !in st.world.files
    ensures r.status.Running? ==>
      && SubjectDir(cfg, subject) in r.world.dirs
      && r.carry == Carry(None, st.carry.earliestReg, st.carry.earliestMask)
  {
    var dir := SubjectDir(cfg, subject);
    if dir in st.world.files then st.(status := Aborted(NotADir(dir)))
    else
      st.(world := st.world.(dirs := st.world.dirs + {dir}),
          carry := st.carry.(earliestImg := None))
  }

  predicate IsAborted(st: RunState) {
    st.status.Aborted?
  }

  /** The body of the inner loop, for one subject. */
  function SessionStep(cfg: Config, subject: string): (RunState, string, nat) -> RunState {
    (st: RunState, session: string, i: nat) => ProcessSession(cfg, st, subject, session, i)
  }

  /** The inner loop after its first `n` iterations; an exception stops it. */
  function RunSessions(cfg: Config, start: RunState, subject: string, sessions: seq<string>, n: nat): RunState
    requires n <= |sessions|
  {
    Fold(SessionStep(cfg, subject), IsAborted, start, sessions, n)
  }

  function ProcessSubject(cfg: Config, st: RunState, subject: string, sessions: seq<string>): RunState {
    RunSessions(cfg, EnterSubject(cfg, st, subject), subject, sessions, |sessions|)
  }

  /** One CSV row of `mr_sessions_with_diag.csv`, as far as the loop reads it. */
  datatype SessionRow = SessionRow(subjectId: string, sessionId: string)

  function SubjectIds(rows: seq<SessionRow>): set<string> {
    set r | r in rows :: r.subjectId
  }

  /** The `session_id` column of the rows of one subject, in frame order. */
  function SessionsOf(rows: seq<SessionRow>, subject: string): seq<string> {
    if rows == [] then []
    else (if rows[0].subjectId == subject then [rows[0].sessionId] else []) + SessionsOf(rows[1..], subject)
  }

  /** `sorted(data_df["subject_id"].unique())`. */
  function SortedSubjects(rows: seq<SessionRow>): (r: seq<string>)
    ensures forall i, j :: 0 <= i < j < |r| ==> StrLe(r[i], r[j]) && r[i] != r[j]
    ensures forall s :: s in r <==> s in SubjectIds(rows)
  {
    StrLeTotalOrder();
    SortedElements(SubjectIds(rows), StrLe)
  }

  /** One subject's `session_id`s after `sort_values("session_id")`. */
  function SortedSessions(rows: seq<SessionRow>, subject: string): (r: seq<string>)
    ensures Sorted(r, StrLe)
    ensures multiset(r) == multiset(SessionsOf(rows, subject))
  {
    StrLeTotalOrder();
    SortBy(SessionsOf(rows, subject), StrLe)
  }

  /**
    The iteration plan: the subjects in ascending order, each with its sessions in ascending
    order.  Only `session_id` of a row is read, so rows with equal ids are interchangeable and
    the order a sort gives to ties does not matter.
  */
  function Plan(rows: seq<SessionRow>): (plan: seq<(string, seq<string>)>)
    ensures forall i, j :: 0 <= i < j < |plan| ==> StrLe(plan[i].0, plan[j].0) && plan[i].0 != plan[j].0
    ensures forall s :: s in SubjectIds(rows) <==> exists i :: 0 <= i < |plan| && plan[i].0 == s
    ensures forall i :: 0 <= i < |plan| ==> Sorted(plan[i].1, StrLe)
    ensures forall i :: 0 <= i < |plan| ==> multiset(plan[i].1) == multiset(SessionsOf(rows, plan[i].0))
  {
    WithSessions(rows, SortedSubjects(rows))
  }

  function WithSessions(rows: seq<SessionRow>, subjects: seq<string>): (plan: seq<(string, seq<string>)>)
    ensures |plan| == |subjects|
    ensures forall i :: 0 <= i < |plan| ==> plan[i].0 == subjects[i]
    ensures forall i :: 0 <= i < |plan| ==> Sorted(plan[i].1, StrLe)
    ensures forall i :: 0 <= i < |plan| ==> multiset(plan[i].1) == multiset(SessionsOf(rows, plan[i].0))
  {
    seq(|subjects|, i requires 0 <= i < |subjects| => (subjects[i], SortedSessions(rows, subjects[i])))
  }

  /** The body of the outer loop. */
  function SubjectStep(cfg: Config): (RunState, (string, seq<string>), nat) -> RunState {
    (st: RunState, entry: (string, seq<string>), k: nat) => ProcessSubject(cfg, st, entry.0, entry.1)
  }

  /** The outer loop after its first `k` subjects. */
  function RunSubjects(cfg: Config, start: RunState, plan: seq<(string, seq<string>)>, k: nat): RunState
    requires k <= |plan|
  {
    Fold(SubjectStep(cfg), IsAborted, start, plan, k)
  }

  /**
    Before the loop: `save_root.mkdir(exist_ok=True, parents=True)`, nothing carried yet.  It
    raises when `save_root` or one of its ancestors is a file.
  */
  function Initial(cfg: Config, w: World): (r: RunState)
    ensures r.log == [] && r.carry == Carry(None, None, None) && r.world.files == w.files && w.dirs <= r.world.dirs
    ensures r.status.Running? <==> forall k :: 1 <= k <= |cfg.saveRoot| ==> cfg.saveRoot[..k] !in w.files
    ensures r.status.Running? ==> forall k :: 1 <= k <= |cfg.saveRoot| ==> cfg.saveRoot[..k] in r.world.dirs
  {
    if exists k :: 1 <= k <= |cfg.saveRoot| && cfg.saveRoot[..k] in w.files then
      RunState(w, Carry(None, None, None), [], Aborted(NotADir(cfg.saveRoot)))
    else
      RunState(w.(dirs := w.dirs + Ancestors(cfg.saveRoot)), Carry(None, None, None), [], Running)
  }

  /** The whole `__main__` block from line 59 on. */
  function Run(cfg: Config, rows: seq<SessionRow>, w: World): (r: RunState)
    ensures Initial(cfg, w).status.Aborted? ==> r == Initial(cfg, w) && r.log == []
  {
    var plan := Plan(rows);
    if Initial(cfg, w).status.Aborted? then
      StoppedStays(SubjectStep(cfg), IsAborted, Initial(cfg, w), plan, 0, |plan|);
      RunSubjects(cfg, Initial(cfg, w), plan, |plan|)
    else RunSubjects(cfg, Initial(cfg, w), plan, |plan|)
  }
}
