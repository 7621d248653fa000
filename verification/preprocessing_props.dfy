/**
  What `preprocessing/oasis3_preprocessing.py` guarantees, proved about the specification in
  `Preprocessing`: the file names it derives, the outcome of one session in each branch, and
  what the whole run leaves in the file system.
*/
module PreprocessingProperties {
  import opened Wrappers
  import opened Paths
  import opened Loops
  import opened Preprocessing

  // ---------------------------------------------------------------- file names

  /** `img_basename` of a NIfTI name whose stem has no dot is that stem. */
  lemma {:induction false} StemDropsExtension(base: string)
    requires '.' !in base
    ensures Stem(base + ".nii.gz") == base
    decreases |base|
  {
    if base != [] {
      var name := base + ".nii.gz";
      assert name[0] == '.' ==> false by {
        assert name[0] == base[0];
      }
      assert name[..7] != ".nii.gz";
      assert name[1..] == base[1..] + ".nii.gz";
      StemDropsExtension(base[1..]);
      assert [base[0]] + base[1..] == base;
    }
  }

  /** The four names a session writes next to its raw copy. */
  predicate IsOutputSuffix(suffix: string) {
    suffix == MniSuffix || suffix == TransformSuffix || suffix == MaskSuffix || suffix == CorrectedSuffix
  }

  /** No output of a session overwrites the copied `T1w.nii.gz` volume. */
  lemma OutputNameDiffersFromRawName(name: string, suffix: string)
    requires EndsWith(name, T1wSuffix) && IsOutputSuffix(suffix)
    ensures Stem(name) + suffix != name
  {
    var out := Stem(name) + suffix;
    // The raw name ends in `z` with a `w` seven places before; no output name does.
    assert name[|name| - 1] == T1wSuffix[9] && name[|name| - 8] == T1wSuffix[2] by {
      assert name[|name| - |T1wSuffix|..] == T1wSuffix;
    }
    assert out[|out| - 1] == suffix[|suffix| - 1];
    assert out[|out| - 8] == suffix[|suffix| - 8];
  }

  /** The four outputs of a session are four different files. */
  lemma OutputNamesDistinct(name: string, s1: string, s2: string)
    requires IsOutputSuffix(s1) && IsOutputSuffix(s2) && s1 != s2
    ensures Stem(name) + s1 != Stem(name) + s2
  {
    assert |s1| != |s2|;
  }

  /** Two entries of one folder with different names are different paths. */
  lemma SiblingsDiffer(dir: Path, x: string, y: string)
    requires x != y
    ensures dir + [x] != dir + [y]
  {
    assert (dir + [x])[|dir|] == x;
  }

  /** The raw copy and the four outputs of a session are five different files. */
  lemma SessionFilesDistinct(dir: Path, name: string)
    requires EndsWith(name, T1wSuffix)
    ensures forall s :: IsOutputSuffix(s) ==> dir + [Stem(name) + s] != dir + [name]
    ensures forall s1, s2 :: IsOutputSuffix(s1) && IsOutputSuffix(s2) && s1 != s2 ==> dir + [Stem(name) + s1] != dir + [Stem(name) + s2]
  {
    forall s | IsOutputSuffix(s)
      ensures dir + [Stem(name) + s] != dir + [name]
    {
      OutputNameDiffersFromRawName(name, s);
      SiblingsDiffer(dir, Stem(name) + s, name);
    }
    forall s1, s2 | IsOutputSuffix(s1) && IsOutputSuffix(s2) && s1 != s2
      ensures dir + [Stem(name) + s1] != dir + [Stem(name) + s2]
    {
      OutputNamesDistinct(name, s1, s2);
      SiblingsDiffer(dir, Stem(name) + s1, Stem(name) + s2);
    }
  }

  // ---------------------------------------------------------------- one session

  /** `session_out.mkdir(exist_ok=True)` succeeds: no file is in the folder's place. */
  predicate CanOpen(cfg: Config, st: RunState, subject: string, session: string) {
    SessionDir(cfg, subject, session) !in st.world.files
  }

  /** A file where the session folder should be makes `mkdir` raise before anything else happens. */
  lemma BlockedFolderAborts(cfg: Config, st: RunState, subject: string, session: string, i: nat)
    requires !CanOpen(cfg, st, subject, session)
    ensures
      var r := ProcessSession(cfg, st, subject, session, i);
      r == st.(status := Aborted(NotADir(SessionDir(cfg, subject, session))))
  {
  }

  /** The world once `session_out.mkdir(exist_ok=True)` has run. */
  function Opened(cfg: Config, st: RunState, subject: string, session: string): World {
    st.world.(dirs := st.world.dirs + {SessionDir(cfg, subject, session)})
  }

  /** What `find_t1w_image` returns for the session. */
  function Located(cfg: Config, st: RunState, subject: string, session: string): Option<Path> {
    FindT1wImage(subject, session, cfg.dataDir, Entries(Opened(cfg, st, subject, session)))
  }

  /** A session whose pattern matches nothing only gets its (empty) output folder. */
  lemma SessionWithoutImageIsSkipped(cfg: Config, st: RunState, subject: string, session: string, i: nat)
    requires CanOpen(cfg, st, subject, session)
    requires T1wMatches(Entries(Opened(cfg, st, subject, session)), cfg.dataDir + [subject], subject, session) == {}
    ensures ProcessSession(cfg, st, subject, session, i)
         == st.(world := Opened(cfg, st, subject, session), log := st.log + [Visit(subject, session, i, NoImage)])
  {
    FindT1wImageIsSortedHead(subject, session, cfg.dataDir, Entries(Opened(cfg, st, subject, session)));
  }

  /** The raw copy `session_out / img_path.name`. */
  function RawCopy(cfg: Config, subject: string, session: string, src: Path): Path
    requires src != []
  {
    SessionDir(cfg, subject, session) + [Name(src)]
  }

  /** The copied volume and the four outputs of a session are five different files. */
  lemma SessionPathsDistinct(cfg: Config, subject: string, session: string, name: string)
    requires EndsWith(name, T1wSuffix)
    ensures
      var raw := SessionDir(cfg, subject, session) + [name];
      var mni := OutputPath(cfg, subject, session, name, MniSuffix);
      var transform := OutputPath(cfg, subject, session, name, TransformSuffix);
      var mask := OutputPath(cfg, subject, session, name, MaskSuffix);
      var corrected := OutputPath(cfg, subject, session, name, CorrectedSuffix);
      && raw != mni && raw != transform && raw != mask && raw != corrected
      && mni != transform && mni != mask && mni != corrected
      && transform != mask && transform != corrected && mask != corrected
  {
    SessionFilesDistinct(SessionDir(cfg, subject, session), name);
    assert IsOutputSuffix(MniSuffix) && IsOutputSuffix(TransformSuffix) && IsOutputSuffix(MaskSuffix) && IsOutputSuffix(CorrectedSuffix);
  }

  /**
    The first session: hd-bet runs only when no mask file exists yet, and a missing mask after
    it is the `FileNotFoundError`; the session goes on exactly when a mask image is then there.
  */
  lemma ReferenceSessionStatus(cfg: Config, st: RunState, subject: string, session: string, src: Path)
    requires CanOpen(cfg, st, subject, session)
    requires Located(cfg, st, subject, session) == Some(src)
    requires src in st.world.files && st.world.files[src].ImageFile?
    ensures src != []
    ensures
      var before := Opened(cfg, st, subject, session);
      var img := st.world.files[src].image;
      var maskPath := OutputPath(cfg, subject, session, Name(src), MaskSuffix);
      var r := ProcessSession(cfg, st, subject, session, 0);
      && (!Exists(before, maskPath) && !cfg.betWritesMask(img) ==> r.status == Aborted(MaskNotFound(maskPath)) && r.log == st.log)
      && (r.status.Running? <==>
            if Exists(before, maskPath) then maskPath in before.files && before.files[maskPath].ImageFile?
            else cfg.betWritesMask(img))
      && (r.status.Aborted? ==> r.log == st.log)
  {
    ReferenceSessionReached(cfg, st, subject, session, src);
    ReferenceBranchStatus(cfg, st, Copied(cfg, st, subject, session, src), subject, session, Name(src), st.world.files[src].image);
  }

  /**
    A first session that goes on writes the MNI-space image, the transform and the corrected
    image, which is the raw volume masked and bias-corrected, in the volume's own space and
    never resampled; the volume, its registration and the mask are kept for the later sessions.
    A mask hd-bet has just made lies on the raw volume's grid, not on the template's.
  */
  lemma ReferenceSessionOutcome(cfg: Config, st: RunState, subject: string, session: string, src: Path)
    requires CanOpen(cfg, st, subject, session)
    requires Located(cfg, st, subject, session) == Some(src)
    requires src in st.world.files && st.world.files[src].ImageFile?
    requires ProcessSession(cfg, st, subject, session, 0).status.Running?
    ensures src != []
    ensures
      var before := Opened(cfg, st, subject, session);
      var img := st.world.files[src].image;
      var maskPath := OutputPath(cfg, subject, session, Name(src), MaskSuffix);
      var r := ProcessSession(cfg, st, subject, session, 0);
      var mask := if Exists(before, maskPath) && maskPath in before.files && before.files[maskPath].ImageFile? then before.files[maskPath].image else BetMask(img);
      var out := BiasCorrected(Masked(img, mask));
      && r.carry == Carry(Some(img), Some(Register(MniTemplate, Denoised(img))), Some(mask))
      && r.log == st.log + [Visit(subject, session, 0, Reference(out))]
      && r.world.files[RawCopy(cfg, subject, session, src)] == ImageFile(img)
      && r.world.files[OutputPath(cfg, subject, session, Name(src), MniSuffix)] == ImageFile(Warped(Denoised(img), MniTemplate))
      && r.world.files[OutputPath(cfg, subject, session, Name(src), TransformSuffix)] == TransformFile(Affine(MniTemplate, Denoised(img)))
      && r.world.files[OutputPath(cfg, subject, session, Name(src), CorrectedSuffix)] == ImageFile(out)
      && SpaceOf(out) == SpaceOf(img) && Resamplings(out) == Resamplings(img)
      && (!Exists(before, maskPath) ==> mask == BetMask(img) && SpaceOf(mask) == SpaceOf(img))
  {
    ReferenceSessionReached(cfg, st, subject, session, src);
    ReferenceBranchOutputs(cfg, st, Copied(cfg, st, subject, session, src), subject, session, Name(src), st.world.files[src].image);
  }

  /** The world after the raw copy of the first session. */
  function Copied(cfg: Config, st: RunState, subject: string, session: string, src: Path): World
    requires src != [] && src in st.world.files
  {
    var before := Opened(cfg, st, subject, session);
    before.(files := before.files[RawCopy(cfg, subject, session, src) := st.world.files[src]])
  }

  /** The first session with a readable volume reaches the reference branch, which sees the mask file as it was. */
  lemma ReferenceSessionReached(cfg: Config, st: RunState, subject: string, session: string, src: Path)
    requires CanOpen(cfg, st, subject, session)
    requires Located(cfg, st, subject, session) == Some(src)
    requires src in st.world.files && st.world.files[src].ImageFile?
    ensures src != [] && EndsWith(Name(src), T1wSuffix)
    ensures
      var before := Opened(cfg, st, subject, session);
      var w := Copied(cfg, st, subject, session, src);
      var maskPath := OutputPath(cfg, subject, session, Name(src), MaskSuffix);
      && ProcessSession(cfg, st, subject, session, 0) == ReferenceSession(cfg, st, w, subject, session, Name(src), st.world.files[src].image)
      && Exists(w, maskPath) == Exists(before, maskPath)
      && (maskPath in w.files <==> maskPath in before.files)
      && (maskPath in w.files ==> w.files[maskPath] == before.files[maskPath])
      && w.files[RawCopy(cfg, subject, session, src)] == st.world.files[src]
  {
    SessionPathsDistinct(cfg, subject, session, Name(src));
  }

  /** The reference branch on world `w`: hd-bet, then the mask check. */
  lemma ReferenceBranchStatus(cfg: Config, st: RunState, w: World, subject: string, session: string, name: string, img: Image)
    requires EndsWith(name, T1wSuffix)
    ensures
      var maskPath := OutputPath(cfg, subject, session, name, MaskSuffix);
      var r := ReferenceSession(cfg, st, w, subject, session, name, img);
      && (!Exists(w, maskPath) && !cfg.betWritesMask(img) ==> r.status == Aborted(MaskNotFound(maskPath)) && r.log == st.log)
      && (r.status.Running? <==>
            if Exists(w, maskPath) then maskPath in w.files && w.files[maskPath].ImageFile?
            else cfg.betWritesMask(img))
      && (r.status.Aborted? ==> r.log == st.log)
  {
    SessionPathsDistinct(cfg, subject, session, name);
    var maskPath := OutputPath(cfg, subject, session, name, MaskSuffix);
    var w1 := ReferenceArtifacts(cfg, w, subject, session, name, img);
    assert Exists(w1, maskPath) == Exists(w, maskPath);
    assert maskPath in w1.files ==> w1.files[maskPath] == w.files[maskPath];
  }

  /** What the reference branch writes and carries on world `w` when it goes on. */
  lemma ReferenceBranchOutputs(cfg: Config, st: RunState, w: World, subject: string, session: string, name: string, img: Image)
    requires EndsWith(name, T1wSuffix)
    requires ReferenceSession(cfg, st, w, subject, session, name, img).status.Running?
    ensures
      var maskPath := OutputPath(cfg, subject, session, name, MaskSuffix);
      var raw := SessionDir(cfg, subject, session) + [name];
      var r := ReferenceSession(cfg, st, w, subject, session, name, img);
      var mask := if Exists(w, maskPath) && maskPath in w.files && w.files[maskPath].ImageFile? then w.files[maskPath].image else BetMask(img);
      var out := BiasCorrected(Masked(img, mask));
      && r.carry == Carry(Some(img), Some(Register(MniTemplate, Denoised(img))), Some(mask))
      && r.log == st.log + [Visit(subject, session, 0, Reference(out))]
      && (raw in w.files ==> raw in r.world.files && r.world.files[raw] == w.files[raw])
      && r.world.files[OutputPath(cfg, subject, session, name, MniSuffix)] == ImageFile(Warped(Denoised(img), MniTemplate))
      && r.world.files[OutputPath(cfg, subject, session, name, TransformSuffix)] == TransformFile(Affine(MniTemplate, Denoised(img)))
      && r.world.files[OutputPath(cfg, subject, session, name, CorrectedSuffix)] == ImageFile(out)
      && SpaceOf(out) == SpaceOf(img) && Resamplings(out) == Resamplings(img)
      && (!Exists(w, maskPath) ==> mask == BetMask(img) && SpaceOf(mask) == SpaceOf(img))
  {
    SessionPathsDistinct(cfg, subject, session, name);
  }

  /**
    A later session after a processed first session: the volume is registered to the reference
    volume and resampled into MNI space once, through the reference's MNI transform followed by
    that registration; it is then masked with the reference's mask and bias-corrected.
    Nothing carried changes.
  */
  lemma FollowUpSessionOutcome(cfg: Config, st: RunState, subject: string, session: string, i: nat, src: Path)
    requires CanOpen(cfg, st, subject, session)
    requires i > 0 && Coherent(st.carry) && st.carry.earliestImg.Some?
    requires Located(cfg, st, subject, session) == Some(src)
    requires src in st.world.files && st.world.files[src].ImageFile?
    ensures src != []
    ensures
      var img := st.world.files[src].image;
      var ref := st.carry.earliestImg.value;
      var chain := [Affine(MniTemplate, Denoised(ref)), Affine(ref, img)];
      var out := BiasCorrected(Masked(Resampled(img, MniTemplate, chain), st.carry.earliestMask.value));
      var r := ProcessSession(cfg, st, subject, session, i);
      && r.status == Running
      && r.carry == st.carry
      && r.log == st.log + [Visit(subject, session, i, FollowUp(out))]
      && r.world.files[RawCopy(cfg, subject, session, src)] == ImageFile(img)
      && r.world.files[OutputPath(cfg, subject, session, Name(src), CorrectedSuffix)] == ImageFile(out)
      && SpaceOf(out) == Template
      && Resamplings(out) == Resamplings(img) + 1
  {
    SessionFilesDistinct(SessionDir(cfg, subject, session), Name(src));
    assert IsOutputSuffix(CorrectedSuffix);
    var img := st.world.files[src].image;
    var ref := st.carry.earliestImg.value;
    var before := Opened(cfg, st, subject, session);
    var w1 := before.(files := before.files[RawCopy(cfg, subject, session, src) := before.files[src]]);
    assert ProcessSession(cfg, st, subject, session, i) == FollowUpSession(cfg, st, w1, subject, session, i, Name(src), img);
    assert Register(MniTemplate, Denoised(ref)).fwdTransforms + Register(ref, img).fwdTransforms
        == [Affine(MniTemplate, Denoised(ref)), Affine(ref, img)];
    var inMni := Resampled(img, MniTemplate, [Affine(MniTemplate, Denoised(ref)), Affine(ref, img)]);
    assert SpaceOf(inMni) == Template && Resamplings(inMni) == Resamplings(img) + 1;
    assert SpaceOf(Masked(inMni, st.carry.earliestMask.value)) == Template;
  }

  /**
    When hd-bet has just made the reference's mask from a scan, a later session of the same
    subject masks its template-space image with that mask, which lies on the scan's own grid.
  */
  lemma FreshMaskMeetsTemplateImage(cfg: Config, st: RunState, subject: string, first: string, later: string,
                                    i: nat, src: Path, src': Path)
    requires CanOpen(cfg, st, subject, first)
    requires Located(cfg, st, subject, first) == Some(src)
    requires src in st.world.files && st.world.files[src].ImageFile? && st.world.files[src].image.Scan?
    requires src != [] && !Exists(Opened(cfg, st, subject, first), OutputPath(cfg, subject, first, Name(src), MaskSuffix))
    requires ProcessSession(cfg, st, subject, first, 0).status.Running?
    requires i > 0
    requires var st1 := ProcessSession(cfg, st, subject, first, 0);
      && CanOpen(cfg, st1, subject, later) && Located(cfg, st1, subject, later) == Some(src')
      && src' in st1.world.files && st1.world.files[src'].ImageFile?
    ensures
      var st1 := ProcessSession(cfg, st, subject, first, 0);
      var r := ProcessSession(cfg, st1, subject, later, i);
      && r.status == Running && |r.log| == |st1.log| + 1
      && r.log[|st1.log|].kind.FollowUp? && r.log[|st1.log|].kind.out.BiasCorrected?
      && r.log[|st1.log|].kind.out.src.Masked?
      && var masked := r.log[|st1.log|].kind.out.src;
      && masked.mask == BetMask(st.world.files[src].image)
      && SpaceOf(masked.src) == Template && SpaceOf(masked.mask) == Native
  {
    ReferenceSessionOutcome(cfg, st, subject, first, src);
    var st1 := ProcessSession(cfg, st, subject, first, 0);
    FollowUpSessionOutcome(cfg, st1, subject, later, i, src');
  }

  /** A later session with an image but no reference volume for its subject raises. */
  lemma FollowUpWithoutReferenceAborts(cfg: Config, st: RunState, subject: string, session: string, i: nat, src: Path)
    requires CanOpen(cfg, st, subject, session)
    requires i > 0 && st.carry.earliestImg.None?
    requires Located(cfg, st, subject, session) == Some(src)
    requires src in st.world.files && st.world.files[src].ImageFile?
    ensures
      var r := ProcessSession(cfg, st, subject, session, i);
      r.status == Aborted(NoReferenceImage(subject, session)) && r.log == st.log
  {
  }

  /**
    A match that is a folder raises in `copyfile` with only the session folder made; a file
    that is not a volume is still copied into it before `image_read` raises.
  */
  lemma UnreadableMatchAborts(cfg: Config, st: RunState, subject: string, session: string, i: nat, src: Path)
    requires CanOpen(cfg, st, subject, session)
    requires Located(cfg, st, subject, session) == Some(src)
    requires !(src in st.world.files && st.world.files[src].ImageFile?)
    ensures src != []
    ensures
      var r := ProcessSession(cfg, st, subject, session, i);
      && r.log == st.log
      && r.status == (if src in st.world.files then Aborted(NotAnImage(RawCopy(cfg, subject, session, src))) else Aborted(NotAFile(src)))
      && r.world == (if src in st.world.files then Copied(cfg, st, subject, session, src) else Opened(cfg, st, subject, session))
  {
  }

  // ---------------------------------------------------------------- one subject

  /** `BiasCorrected(Masked(ref, mask))`: what a first session writes. */
  function ReferenceOutput(ref: Image, mask: Image): Image {
    BiasCorrected(Masked(ref, mask))
  }

  /** What a later session writes for `img`, given the subject's reference volume and mask. */
  function FollowUpOutput(ref: Image, mask: Image, img: Image): Image {
    BiasCorrected(Masked(Resampled(img, MniTemplate, [Affine(MniTemplate, Denoised(ref)), Affine(ref, img)]), mask))
  }

  /** `out` was produced through the reference volume and mask that produced `refOut`. */
  predicate ThroughReference(out: Image, refOut: Image) {
    && refOut.BiasCorrected? && refOut.src.Masked?
    && out.BiasCorrected? && out.src.Masked? && out.src.src.Resampled?
    && out == FollowUpOutput(refOut.src.src, refOut.src.mask, out.src.src.moving)
  }

  /**
    The visits of one subject, in order: a reference can only be the first; when the first
    session had no image, no later session produced anything; after a reference, every later
    output went through that reference's volume and mask.
  */
  predicate SubjectHistory(h: seq<Event>) {
    && (forall j :: 0 < j < |h| ==> !h[j].kind.Reference?)
    && (|h| > 0 && h[0].kind.NoImage? ==> forall j :: 0 <= j < |h| ==> h[j].kind.NoImage?)
    && (|h| > 0 && h[0].kind.Reference? ==>
          forall j :: 0 < j < |h| && h[j].kind.FollowUp? ==> ThroughReference(h[j].kind.out, h[0].kind.out))
  }

  /** The visits `h` are those of `subject`'s first sessions, in order, one per session. */
  predicate VisitsInOrder(h: seq<Event>, subject: string, sessions: seq<string>) {
    && |h| <= |sessions|
    && forall j :: 0 <= j < |h| ==> h[j].subject == subject && h[j].session == sessions[j] && h[j].position == j
  }

  /** The session loop's invariant after `n` iterations, for a log that was `log0` on entry. */
  predicate SessionLoopInvariant(subject: string, sessions: seq<string>, log0: seq<Event>, st: RunState, n: nat) {
    && |log0| <= |st.log| <= |log0| + n
    && st.log[..|log0|] == log0
    && VisitsInOrder(st.log[|log0|..], subject, sessions)
    && SubjectHistory(st.log[|log0|..])
    && (st.status.Running? ==>
          && |st.log| == |log0| + n
          && Coherent(st.carry)
          && (st.carry.earliestImg.None? <==> |st.log| == |log0| || st.log[|log0|].kind.NoImage?)
          && (st.carry.earliestImg.Some? ==>
                st.log[|log0|].kind == Reference(ReferenceOutput(st.carry.earliestImg.value, st.carry.earliestMask.value))))
  }

  lemma AbortKeepsInvariant(subject: string, sessions: seq<string>, log0: seq<Event>, st: RunState, r: RunState, i: nat)
    requires i < |sessions| && SessionLoopInvariant(subject, sessions, log0, st, i)
    requires r.status.Aborted? && r.log == st.log
    ensures SessionLoopInvariant(subject, sessions, log0, r, i + 1)
  {
  }

  lemma VisitKeepsInvariant(subject: string, sessions: seq<string>, log0: seq<Event>, st: RunState, r: RunState, i: nat, kind: Kind)
    requires i < |sessions| && st.status.Running? && SessionLoopInvariant(subject, sessions, log0, st, i)
    requires r.status.Running? && r.log == st.log + [Visit(subject, sessions[i], i, kind)] && Coherent(r.carry)
    requires kind.NoImage? ==> r.carry.earliestImg == st.carry.earliestImg && r.carry.earliestMask == st.carry.earliestMask
    requires kind.Reference? ==> i == 0 && r.carry.earliestImg.Some? && kind.out == ReferenceOutput(r.carry.earliestImg.value, r.carry.earliestMask.value)
    requires kind.FollowUp? ==>
               && r.carry == st.carry && st.carry.earliestImg.Some?
               && ThroughReference(kind.out, ReferenceOutput(st.carry.earliestImg.value, st.carry.earliestMask.value))
    ensures SessionLoopInvariant(subject, sessions, log0, r, i + 1)
  {
    var h := st.log[|log0|..];
    assert r.log[|log0|..] == h + [Visit(subject, sessions[i], i, kind)];
    assert r.log[..|log0|] == log0;
    HistoryGrows(h, Visit(subject, sessions[i], i, kind), subject, sessions);
  }

  /** One more visit, of the next session, keeps a subject's visits in order and its history well formed. */
  lemma HistoryGrows(h: seq<Event>, e: Event, subject: string, sessions: seq<string>)
    requires VisitsInOrder(h, subject, sessions) && SubjectHistory(h) && |h| < |sessions|
    requires e.subject == subject && e.session == sessions[|h|] && e.position == |h|
    requires e.kind.Reference? ==> h == []
    requires !e.kind.NoImage? && h != [] ==> h[0].kind.Reference?
    requires e.kind.FollowUp? ==> h != [] && ThroughReference(e.kind.out, h[0].kind.out)
    ensures VisitsInOrder(h + [e], subject, sessions) && SubjectHistory(h + [e])
  {
    var h' := h + [e];
    assert forall j :: 0 <= j < |h| ==> h'[j] == h[j];
  }

  lemma SessionStepKeepsInvariant(cfg: Config, subject: string, sessions: seq<string>, log0: seq<Event>, st: RunState, i: nat)
    requires i < |sessions| && st.status.Running?
    requires SessionLoopInvariant(subject, sessions, log0, st, i)
    ensures SessionLoopInvariant(subject, sessions, log0, ProcessSession(cfg, st, subject, sessions[i], i), i + 1)
  {
    var session := sessions[i];
    var r := ProcessSession(cfg, st, subject, session, i);
    if !CanOpen(cfg, st, subject, session) {
      BlockedFolderAborts(cfg, st, subject, session, i);
      AbortKeepsInvariant(subject, sessions, log0, st, r, i);
      return;
    }
    match Located(cfg, st, subject, session)
    case None =>
      assert r == st.(world := Opened(cfg, st, subject, session), log := st.log + [Visit(subject, session, i, NoImage)]);
      VisitKeepsInvariant(subject, sessions, log0, st, r, i, NoImage);
    case Some(src) =>
      if !(src in st.world.files && st.world.files[src].ImageFile?) {
        UnreadableMatchAborts(cfg, st, subject, session, i, src);
        AbortKeepsInvariant(subject, sessions, log0, st, r, i);
      } else if i == 0 {
        ReferenceSessionStatus(cfg, st, subject, session, src);
        if r.status.Running? {
          ReferenceSessionOutcome(cfg, st, subject, session, src);
          VisitKeepsInvariant(subject, sessions, log0, st, r, i, r.log[|r.log| - 1].kind);
        } else {
          AbortKeepsInvariant(subject, sessions, log0, st, r, i);
        }
      } else if st.carry.earliestImg.None? {
        FollowUpWithoutReferenceAborts(cfg, st, subject, session, i, src);
        AbortKeepsInvariant(subject, sessions, log0, st, r, i);
      } else {
        FollowUpSessionOutcome(cfg, st, subject, session, i, src);
        VisitKeepsInvariant(subject, sessions, log0, st, r, i, r.log[|r.log| - 1].kind);
      }
  }

  /** A file where the subject folder should be makes `mkdir` raise before any session is visited. */
  lemma BlockedSubjectFolderAborts(cfg: Config, st: RunState, subject: string, sessions: seq<string>)
    requires SubjectDir(cfg, subject) in st.world.files
    ensures ProcessSubject(cfg, st, subject, sessions) == st.(status := Aborted(NotADir(SubjectDir(cfg, subject))))
  {
    StoppedStays(SessionStep(cfg, subject), IsAborted, EnterSubject(cfg, st, subject), sessions, 0, |sessions|);
  }

  /**
    One subject: its sessions are visited in sorted order, one visit each, until one raises;
    the visits follow `SubjectHistory`; if none raises, every session was visited.
  */
  lemma SubjectVisitsSessionsInOrder(cfg: Config, st: RunState, subject: string, sessions: seq<string>)
    requires st.status.Running? && Coherent(st.carry)
    ensures
      var r := ProcessSubject(cfg, st, subject, sessions);
      && |st.log| <= |r.log|
      && r.log[..|st.log|] == st.log
      && VisitsInOrder(r.log[|st.log|..], subject, sessions)
      && SubjectHistory(r.log[|st.log|..])
      && (r.status.Running? ==> |r.log| == |st.log| + |sessions| && Coherent(r.carry))
  {
    var entered := EnterSubject(cfg, st, subject);
    var inv := (s: RunState, n: nat) => SessionLoopInvariant(subject, sessions, st.log, s, n);
    forall s: RunState, i: nat | 0 <= i < |sessions| && inv(s, i) && !IsAborted(s)
      ensures inv(SessionStep(cfg, subject)(s, sessions[i], i), i + 1)
    {
      SessionStepKeepsInvariant(cfg, subject, sessions, st.log, s, i);
    }
    assert inv(entered, 0) by {
      assert entered.log[|st.log|..] == [];
    }
    FoldInvariant(SessionStep(cfg, subject), IsAborted, entered, sessions, |sessions|, inv);
  }

  // ---------------------------------------------------------------- the whole run

  /**
    From `w0` to `w` nothing was deleted, and outside `root` no file was created or changed:
    the raw data, the CSV and the templates stay as they were.
  */
  predicate KeepsOutside(w0: World, w: World, root: Path) {
    && w0.dirs <= w.dirs
    && w0.files.Keys <= w.files.Keys
    && (forall p :: p in w0.files && !Under(p, root) ==> w.files[p] == w0.files[p])
    && (forall p :: p in w.files && !Under(p, root) ==> p in w0.files)
  }

  /** `p` is an entry directly inside folder `dir`. */
  predicate InFolder(p: Path, dir: Path) {
    |p| == |dir| + 1 && p[..|dir|] == dir
  }

  /** Only entries of `dir` were added to or changed in `m0` to give `m`. */
  predicate ChangedOnlyIn(m0: map<Path, Blob>, m: map<Path, Blob>, dir: Path) {
    && m0.Keys <= m.Keys
    && forall p :: p in m && (p !in m0 || m[p] != m0[p]) ==> InFolder(p, dir)
  }

  lemma WriteInFolder(m0: map<Path, Blob>, m: map<Path, Blob>, dir: Path, x: string, b: Blob)
    requires ChangedOnlyIn(m0, m, dir)
    ensures ChangedOnlyIn(m0, m[dir + [x] := b], dir)
  {
    assert InFolder(dir + [x], dir);
  }

  /** A session adds or changes files only inside its own output folder. */
  lemma SessionChangesOnlyItsFolder(cfg: Config, st: RunState, subject: string, session: string, i: nat)
    ensures
      var r := ProcessSession(cfg, st, subject, session, i);
      st.world.dirs <= r.world.dirs && ChangedOnlyIn(st.world.files, r.world.files, SessionDir(cfg, subject, session))
  {
    var dir := SessionDir(cfg, subject, session);
    var before := Opened(cfg, st, subject, session);
    var m0 := st.world.files;
    match Located(cfg, st, subject, session)
    case None =>
    case Some(src) =>
      if src in m0 {
        var name := Name(src);
        var m1 := m0[dir + [name] := m0[src]];
        WriteInFolder(m0, m0, dir, name, m0[src]);
        if m1[dir + [name]].ImageFile? {
          var img := m1[dir + [name]].image;
          var w1 := before.(files := m1);
          var out := Stem(name) + CorrectedSuffix;
          if i == 0 {
            var reg := Register(MniTemplate, Denoised(img));
            var m2 := m1[dir + [Stem(name) + MniSuffix] := ImageFile(reg.warped)];
            WriteInFolder(m0, m1, dir, Stem(name) + MniSuffix, ImageFile(reg.warped));
            var m3 := m2[dir + [Stem(name) + TransformSuffix] := TransformFile(reg.fwdTransforms[0])];
            WriteInFolder(m0, m2, dir, Stem(name) + TransformSuffix, TransformFile(reg.fwdTransforms[0]));
            assert ReferenceArtifacts(cfg, w1, subject, session, name, img).files == m3;
            var maskPath := dir + [Stem(name) + MaskSuffix];
            var m4 := m3[maskPath := ImageFile(BetMask(img))];
            WriteInFolder(m0, m3, dir, Stem(name) + MaskSuffix, ImageFile(BetMask(img)));
            var w4 := RunBet(cfg, w1.(files := m3), maskPath, img);
            assert w4.files == m3 || w4.files == m4;
            if Exists(w4, maskPath) && maskPath in w4.files && w4.files[maskPath].ImageFile? {
              var b := ImageFile(BiasCorrected(Masked(img, w4.files[maskPath].image)));
              WriteInFolder(m0, w4.files, dir, out, b);
            }
          } else {
            match st.carry
            case Carry(Some(earliest), Some(earliestReg), Some(earliestMask)) =>
              var chain := earliestReg.fwdTransforms + Register(earliest, img).fwdTransforms;
              var b := ImageFile(BiasCorrected(Masked(Resampled(img, MniTemplate, chain), earliestMask)));
              WriteInFolder(m0, m1, dir, out, b);
            case _ =>
          }
        }
      }
  }

  /** Writing only inside a folder below `root` leaves everything outside `root` as it was. */
  lemma WritesInFolderBelow(w0: World, w: World, w': World, dir: Path, root: Path)
    requires KeepsOutside(w0, w, root)
    requires w.dirs <= w'.dirs && ChangedOnlyIn(w.files, w'.files, dir)
    requires |dir| >= |root| && dir[..|root|] == root
    ensures KeepsOutside(w0, w', root)
  {
    forall p | p in w'.files && (p !in w.files || w'.files[p] != w.files[p])
      ensures Under(p, root)
    {
      assert p[..|dir|] == dir;
      assert p[..|root|] == dir[..|root|];
    }
  }

  /** A session writes only below `save_root`. */
  lemma SessionWritesBelowSaveRoot(cfg: Config, st: RunState, subject: string, session: string, i: nat, w0: World)
    requires KeepsOutside(w0, st.world, cfg.saveRoot)
    ensures KeepsOutside(w0, ProcessSession(cfg, st, subject, session, i).world, cfg.saveRoot)
  {
    var dir := SessionDir(cfg, subject, session);
    SessionChangesOnlyItsFolder(cfg, st, subject, session, i);
    assert dir[..|cfg.saveRoot|] == cfg.saveRoot;
    WritesInFolderBelow(w0, st.world, ProcessSession(cfg, st, subject, session, i).world, dir, cfg.saveRoot);
  }

  /** A subject's folder, its reset and its session loop write only below `save_root`. */
  lemma SubjectWritesBelowSaveRoot(cfg: Config, st: RunState, subject: string, sessions: seq<string>, w0: World)
    requires KeepsOutside(w0, st.world, cfg.saveRoot)
    ensures KeepsOutside(w0, ProcessSubject(cfg, st, subject, sessions).world, cfg.saveRoot)
  {
    var inv := (s: RunState, n: nat) => KeepsOutside(w0, s.world, cfg.saveRoot);
    forall s: RunState, i: nat | 0 <= i < |sessions| && inv(s, i) && !IsAborted(s)
      ensures inv(SessionStep(cfg, subject)(s, sessions[i], i), i + 1)
    {
      SessionWritesBelowSaveRoot(cfg, s, subject, sessions[i], i, w0);
    }
    FoldInvariant(SessionStep(cfg, subject), IsAborted, EnterSubject(cfg, st, subject), sessions, |sessions|, inv);
  }

  /**
    The inputs are left alone: every file outside `save_root` (the raw data under `data_dir`
    included) is still there with the same contents, and no file appears outside `save_root`.
  */
  lemma RunLeavesInputsAlone(cfg: Config, rows: seq<SessionRow>, w0: World)
    ensures KeepsOutside(w0, Run(cfg, rows, w0).world, cfg.saveRoot)
  {
    var plan := Plan(rows);
    var inv := (s: RunState, n: nat) => KeepsOutside(w0, s.world, cfg.saveRoot);
    forall s: RunState, k: nat | 0 <= k < |plan| && inv(s, k) && !IsAborted(s)
      ensures inv(SubjectStep(cfg)(s, plan[k], k), k + 1)
    {
      SubjectWritesBelowSaveRoot(cfg, s, plan[k].0, plan[k].1, w0);
    }
    FoldInvariant(SubjectStep(cfg), IsAborted, Initial(cfg, w0), plan, |plan|, inv);
  }

  /** The (subject, session, position) of every visit in a log. */
  function Visits(log: seq<Event>): seq<(string, string, nat)> {
    seq(|log|, j requires 0 <= j < |log| => (log[j].subject, log[j].session, log[j].position))
  }

  /** The visits one subject's session loop makes when nothing raises. */
  function SubjectVisits(subject: string, sessions: seq<string>): seq<(string, string, nat)> {
    seq(|sessions|, j requires 0 <= j < |sessions| => (subject, sessions[j], j))
  }

  /** The visits of the first `k` subjects of the plan, in loop order. */
  function PlannedVisits(plan: seq<(string, seq<string>)>, k: nat): seq<(string, string, nat)>
    requires k <= |plan|
  {
    if k == 0 then [] else PlannedVisits(plan, k - 1) + SubjectVisits(plan[k - 1].0, plan[k - 1].1)
  }

  predicate IsPrefix<T(==)>(a: seq<T>, b: seq<T>) {
    |a| <= |b| && a == b[..|a|]
  }

  /** The subject loop's invariant after `k` subjects. */
  predicate SubjectLoopInvariant(plan: seq<(string, seq<string>)>, st: RunState, k: nat)
    requires k <= |plan|
  {
    && IsPrefix(Visits(st.log), PlannedVisits(plan, k))
    && (st.status.Running? ==> Visits(st.log) == PlannedVisits(plan, k) && Coherent(st.carry))
  }

  lemma SubjectStepKeepsInvariant(cfg: Config, plan: seq<(string, seq<string>)>, st: RunState, k: nat)
    requires k < |plan| && SubjectLoopInvariant(plan, st, k)
    ensures !IsAborted(st) ==> SubjectLoopInvariant(plan, SubjectStep(cfg)(st, plan[k], k), k + 1)
    ensures IsAborted(st) ==> SubjectLoopInvariant(plan, st, k + 1)
  {
    var (subject, sessions) := plan[k];
    var before := PlannedVisits(plan, k);
    assert PlannedVisits(plan, k + 1) == before + SubjectVisits(subject, sessions);
    if IsAborted(st) {
      assert before == PlannedVisits(plan, k + 1)[..|before|];
    } else {
      var r := ProcessSubject(cfg, st, subject, sessions);
      SubjectVisitsSessionsInOrder(cfg, st, subject, sessions);
      var h := r.log[|st.log|..];
      assert r.log == st.log + h;
      assert Visits(r.log) == Visits(st.log) + Visits(h);
      assert Visits(h) == SubjectVisits(subject, sessions)[..|h|];
    }
  }

  /** The subject loop keeps its invariant over any plan. */
  lemma SubjectLoopKeepsInvariant(cfg: Config, start: RunState, plan: seq<(string, seq<string>)>)
    requires SubjectLoopInvariant(plan, start, 0)
    ensures SubjectLoopInvariant(plan, RunSubjects(cfg, start, plan, |plan|), |plan|)
  {
    var inv := (s: RunState, k: nat) => k <= |plan| && SubjectLoopInvariant(plan, s, k);
    forall s: RunState, k: nat | 0 <= k < |plan| && inv(s, k)
      ensures !IsAborted(s) ==> inv(SubjectStep(cfg)(s, plan[k], k), k + 1)
      ensures IsAborted(s) ==> inv(s, k + 1)
    {
      SubjectStepKeepsInvariant(cfg, plan, s, k);
    }
    FoldInvariant(SubjectStep(cfg), IsAborted, start, plan, |plan|, inv);
  }

  /**
    The whole run visits the sessions of the plan (subjects ascending, each subject's sessions
    ascending) one by one in that order; an exception cuts the sequence short, and a run that
    finishes has visited every planned session exactly once.
  */
  lemma RunVisitsPlanInOrder(cfg: Config, rows: seq<SessionRow>, w0: World)
    ensures
      var plan := Plan(rows);
      var r := Run(cfg, rows, w0);
      && IsPrefix(Visits(r.log), PlannedVisits(plan, |plan|))
      && (r.status.Running? ==> Visits(r.log) == PlannedVisits(plan, |plan|))
  {
    var plan := Plan(rows);
    var start := Initial(cfg, w0);
    assert Visits(start.log) == [];
    SubjectLoopKeepsInvariant(cfg, start, plan);
  }
}
