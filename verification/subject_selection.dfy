/**
  `preprocessing/oasis3_subject_selection.py`: the MR sessions of OASIS-3 are matched with the
  clinical diagnosis closest in age, relabelled to the BIDS-style folder names, and kept only
  when a T1-weighted scan for them exists on disk.  Ages are reals, a missing value (pandas
  NaN) is `None`, and the disk is the `World` of the preprocessing model.
*/
module SubjectSelection {
  import opened Wrappers
  import opened Paths
  import opened Sequences
  import opened Preprocessing

  /** A row of the sessions CSV after the renames: `subject_id`, `session_id`, `Age`. */
  datatype Session = Session(subjectId: string, sessionId: string, age: Option<real>)

  /** A row of the diagnoses CSV after the renames: `subject_id`, `Age`, `NORMCOG`. */
  datatype Diagnosis = Diagnosis(subjectId: string, age: Option<real>, normcog: Option<real>)

  /** A session row once the `NORMCOG` column is assigned. */
  datatype Labelled = Labelled(subjectId: string, sessionId: string, age: Option<real>, normcog: Option<real>)

  /** A session row once the `T1w_exists` column is assigned. */
  datatype Row = Row(subjectId: string, sessionId: string, age: Option<real>, normcog: Option<real>, t1wExists: bool)

  /** A diagnosis `find_closest_diag` may pick for a session: same subject, known age. */
  predicate IsCandidate(s: Session, d: Diagnosis) {
    d.subjectId == s.subjectId && d.age.Some?
  }

  function Abs(x: real): real {
    if x < 0.0 then -x else x
  }

  function Distance(d: Diagnosis, age: real): real
    requires d.age.Some?
  {
    Abs(d.age.value - age)
  }

  /**
    `(diags["Age"] - row["Age"]).abs().idxmin()` over the candidates of `s` among `diags`: the
    position of a candidate at the least age distance, the first such position on ties, and
    `None` when `s` has no age or no candidate.
  */
  function ClosestIndex(s: Session, diags: seq<Diagnosis>): (r: Option<nat>)
    ensures r.None? <==> s.age.None? || forall j :: 0 <= j < |diags| ==> !IsCandidate(s, diags[j])
    ensures r.Some? ==> r.value < |diags| && IsCandidate(s, diags[r.value])
    ensures r.Some? ==> forall j :: 0 <= j < |diags| && IsCandidate(s, diags[j]) ==>
      Distance(diags[r.value], s.age.value) <= Distance(diags[j], s.age.value)
    ensures r.Some? ==> forall j :: 0 <= j < r.value && IsCandidate(s, diags[j]) ==>
      Distance(diags[r.value], s.age.value) < Distance(diags[j], s.age.value)
    decreases |diags|
  {
    if s.age.None? || diags == [] then None
    else
      var last := |diags| - 1;
      var before := ClosestIndex(s, diags[..last]);
      if !IsCandidate(s, diags[last]) then before
      else if before.None? then Some(last)
      else if Distance(diags[last], s.age.value) < Distance(diags[before.value], s.age.value) then Some(last)
      else before
  }

  /** `find_closest_diag(row, diag_df)`: the `NORMCOG` of the closest diagnosis, else NaN. */
  function ClosestDiag(s: Session, diags: seq<Diagnosis>): (r: Option<real>)
    ensures s.age.None? || (forall j :: 0 <= j < |diags| ==> !IsCandidate(s, diags[j])) ==> r.None?
    ensures r.Some? ==> exists k :: 0 <= k < |diags| && IsCandidate(s, diags[k]) && diags[k].normcog == r
  {
    match ClosestIndex(s, diags)
    case None => None
    case Some(k) => diags[k].normcog
  }

  /**
    `str(id).split("_")[-1]`: the part after the last underscore, the whole text when there is
    none.
  */
  function AfterLastUnderscore(id: string): (r: string)
    ensures |r| <= |id| && r == id[|id| - |r|..]
    ensures '_' !in r
    ensures |r| < |id| ==> id[|id| - |r| - 1] == '_'
  {
    if id == [] then []
    else if id[|id| - 1] == '_' then []
    else AfterLastUnderscore(id[..|id| - 1]) + [id[|id| - 1]]
  }

  /** The folder name of a session: `"ses-"` and the visit part of the MR id. */
  function SessionLabel(id: string): (r: string)
    ensures |r| >= 4 && r[..4] == "ses-"
    ensures |r| - 4 <= |id| && r[4..] == id[|id| - (|r| - 4)..] && '_' !in r[4..]
  {
    "ses-" + AfterLastUnderscore(id)
  }

  /** The folder name of a subject. */
  function SubjectLabel(id: string): string {
    "sub-" + id
  }

  /**
    `t1w_exists`: false unless `dataDir/subject` is a directory, and otherwise whether anything
    below it has a name matching `{subject}_{session}*T1w.nii.gz`.
  */
  function T1wExists(w: World, dataDir: Path, subject: string, session: string): (b: bool)
    ensures b <==> dataDir + [subject] in w.dirs && FindT1wImage(subject, session, dataDir, Entries(w)).Some?
  {
    FindT1wImageIsSortedHead(subject, session, dataDir, Entries(w));
    var folder := dataDir + [subject];
    folder in w.dirs && T1wMatches(Entries(w), folder, subject, session) != {}
  }

  /** Whether a session row survives the three filters of the script. */
  predicate Keep(diags: seq<Diagnosis>, dataDir: Path, w: World, s: Session) {
    && s.age.Some?
    && ClosestDiag(s, diags).Some?
    && T1wExists(w, dataDir, SubjectLabel(s.subjectId), SessionLabel(s.sessionId))
  }

  /** What a surviving session row looks like at the end. */
  function Final(diags: seq<Diagnosis>, dataDir: Path, w: World, s: Session): Row {
    Row(SubjectLabel(s.subjectId), SessionLabel(s.sessionId), s.age, ClosestDiag(s, diags),
        T1wExists(w, dataDir, SubjectLabel(s.subjectId), SessionLabel(s.sessionId)))
  }

  /** The selected frame: the surviving rows, relabelled, in their original order. */
  function Selection(sessions: seq<Session>, diags: seq<Diagnosis>, dataDir: Path, w: World): (r: seq<Row>)
    ensures |r| <= |sessions|
  {
    Map(Filter(sessions, s => Keep(diags, dataDir, w, s)), s => Final(diags, dataDir, w, s))
  }

  // The row-wise steps of lines 68 to 82.

  predicate AgeKnown(s: Session) {
    s.age.Some?
  }

  function Annotate(diags: seq<Diagnosis>, s: Session): Labelled {
    Labelled(s.subjectId, s.sessionId, s.age, ClosestDiag(s, diags))
  }

  predicate NormcogKnown(l: Labelled) {
    l.normcog.Some?
  }

  function RenameSession(l: Labelled): Labelled {
    l.(sessionId := SessionLabel(l.sessionId))
  }

  function PrefixSubject(l: Labelled): Labelled {
    l.(subjectId := SubjectLabel(l.subjectId))
  }

  function Check(w: World, dataDir: Path, l: Labelled): Row {
    Row(l.subjectId, l.sessionId, l.age, l.normcog, T1wExists(w, dataDir, l.subjectId, l.sessionId))
  }

  predicate ScanFound(r: Row) {
    r.t1wExists
  }

  /** Lines 68 to 82, one statement at a time on `sessions_df`. */
  method SelectSessions(sessions: seq<Session>, diags: seq<Diagnosis>, dataDir: Path, w: World) returns (frame: seq<Row>)
    ensures frame == Selection(sessions, diags, dataDir, w)
  {
    var aged := Filter(sessions, AgeKnown);
    var labelled := Map(aged, s => Annotate(diags, s));
    labelled := Filter(labelled, NormcogKnown);
    labelled := Map(labelled, RenameSession);
    labelled := Map(labelled, PrefixSubject);
    var checked := Map(labelled, l => Check(w, dataDir, l));
    frame := Filter(checked, ScanFound);
    ColumnStepsSelect(sessions, diags, dataDir, w);
  }

  /** The three column assignments after the second filter act as one row-wise step. */
  lemma ColumnStepsFuse(rows: seq<Labelled>, dataDir: Path, w: World)
    ensures Map(Map(Map(rows, RenameSession), PrefixSubject), l => Check(w, dataDir, l))
         == Map(rows, l => Check(w, dataDir, PrefixSubject(RenameSession(l))))
  {
    MapMap(rows, RenameSession, PrefixSubject, l => PrefixSubject(RenameSession(l)));
    MapMap(rows, l => PrefixSubject(RenameSession(l)), l => Check(w, dataDir, l), l => Check(w, dataDir, PrefixSubject(RenameSession(l))));
  }

  /** The second filter moves in front of the annotation, and the annotation joins the relabelling. */
  lemma DiagnosisFilterFirst(aged: seq<Session>, diags: seq<Diagnosis>, dataDir: Path, w: World)
    ensures Map(Filter(Map(aged, s => Annotate(diags, s)), NormcogKnown), l => Check(w, dataDir, PrefixSubject(RenameSession(l))))
         == Map(Filter(aged, (s: Session) => ClosestDiag(s, diags).Some?), s => Final(diags, dataDir, w, s))
  {
    FilterMap(aged, s => Annotate(diags, s), NormcogKnown, (s: Session) => ClosestDiag(s, diags).Some?);
    var early := Filter(aged, (s: Session) => ClosestDiag(s, diags).Some?);
    MapMap(early, s => Annotate(diags, s), l => Check(w, dataDir, PrefixSubject(RenameSession(l))), s => Final(diags, dataDir, w, s));
  }

  /** The last filter moves in front of all the row-wise steps. */
  lemma ScanFilterFirst(early: seq<Session>, diags: seq<Diagnosis>, dataDir: Path, w: World)
    ensures Filter(Map(early, s => Final(diags, dataDir, w, s)), ScanFound)
         == Map(Filter(early, (s: Session) => T1wExists(w, dataDir, SubjectLabel(s.subjectId), SessionLabel(s.sessionId))),
                s => Final(diags, dataDir, w, s))
  {
    FilterMap(early, s => Final(diags, dataDir, w, s), ScanFound,
              (s: Session) => T1wExists(w, dataDir, SubjectLabel(s.subjectId), SessionLabel(s.sessionId)));
  }

  /** The three filters, applied one after the other, keep the rows `Keep` accepts. */
  lemma FiltersCombine(sessions: seq<Session>, diags: seq<Diagnosis>, dataDir: Path, w: World)
    ensures Filter(Filter(Filter(sessions, AgeKnown), (s: Session) => ClosestDiag(s, diags).Some?),
                   (s: Session) => T1wExists(w, dataDir, SubjectLabel(s.subjectId), SessionLabel(s.sessionId)))
         == Filter(sessions, s => Keep(diags, dataDir, w, s))
  {
    FilterFilter(sessions, AgeKnown, (s: Session) => ClosestDiag(s, diags).Some?, (s: Session) => s.age.Some? && ClosestDiag(s, diags).Some?);
    FilterFilter(sessions, (s: Session) => s.age.Some? && ClosestDiag(s, diags).Some?,
                 (s: Session) => T1wExists(w, dataDir, SubjectLabel(s.subjectId), SessionLabel(s.sessionId)),
                 s => Keep(diags, dataDir, w, s));
  }

  /** The filters and column assignments of the script, in its order, give `Selection`. */
  lemma ColumnStepsSelect(sessions: seq<Session>, diags: seq<Diagnosis>, dataDir: Path, w: World)
    ensures Filter(Map(Map(Map(Filter(Map(Filter(sessions, AgeKnown), s => Annotate(diags, s)), NormcogKnown),
              RenameSession), PrefixSubject), l => Check(w, dataDir, l)), ScanFound)
         == Selection(sessions, diags, dataDir, w)
  {
    var aged := Filter(sessions, AgeKnown);
    var diagnosed := Filter(Map(aged, s => Annotate(diags, s)), NormcogKnown);
    ColumnStepsFuse(diagnosed, dataDir, w);
    DiagnosisFilterFirst(aged, diags, dataDir, w);
    ScanFilterFirst(Filter(aged, (s: Session) => ClosestDiag(s, diags).Some?), diags, dataDir, w);
    FiltersCombine(sessions, diags, dataDir, w);
  }

  /** Every surviving row has an age, a diagnosis, an existing scan and the folder labels. */
  lemma SelectedRowsComplete(sessions: seq<Session>, diags: seq<Diagnosis>, dataDir: Path, w: World)
    ensures forall r :: r in Selection(sessions, diags, dataDir, w) ==>
      && r.age.Some? && r.normcog.Some? && r.t1wExists
      && StartsWith(r.subjectId, "sub-") && StartsWith(r.sessionId, "ses-")
  {
    var kept := Filter(sessions, s => Keep(diags, dataDir, w, s));
    forall r | r in Selection(sessions, diags, dataDir, w)
      ensures r.age.Some? && r.normcog.Some? && r.t1wExists
      ensures StartsWith(r.subjectId, "sub-") && StartsWith(r.sessionId, "ses-")
    {
      var k :| 0 <= k < |kept| && r == Final(diags, dataDir, w, kept[k]);
      assert kept[k] in kept;
    }
  }

  /**
    The selected rows are, in order, the relabelled images of a subsequence of the input, and
    a row is there exactly when its session has an age, a diagnosis matched on the raw ids and
    a scan found under the relabelled ids.
  */
  lemma SelectionKeepsOrder(sessions: seq<Session>, diags: seq<Diagnosis>, dataDir: Path, w: World)
    ensures
      var kept := Filter(sessions, s => Keep(diags, dataDir, w, s));
      && IsSubsequence(kept, sessions)
      && |Selection(sessions, diags, dataDir, w)| == Count(sessions, s => Keep(diags, dataDir, w, s))
      && forall k :: 0 <= k < |kept| ==> Selection(sessions, diags, dataDir, w)[k] == Final(diags, dataDir, w, kept[k])
  {
    FilterKeepsOrder(sessions, s => Keep(diags, dataDir, w, s));
  }

  /** A session of the input appears in the selection exactly when it passes all three filters. */
  lemma SelectionMembership(sessions: seq<Session>, diags: seq<Diagnosis>, dataDir: Path, w: World, s: Session)
    requires s in sessions
    ensures Keep(diags, dataDir, w, s) ==> Final(diags, dataDir, w, s) in Selection(sessions, diags, dataDir, w)
    ensures forall r :: r in Selection(sessions, diags, dataDir, w) ==>
      exists t :: t in sessions && Keep(diags, dataDir, w, t) && r == Final(diags, dataDir, w, t)
  {
    var kept := Filter(sessions, s => Keep(diags, dataDir, w, s));
    if Keep(diags, dataDir, w, s) {
      var k :| 0 <= k < |kept| && kept[k] == s;
      assert Selection(sessions, diags, dataDir, w)[k] == Final(diags, dataDir, w, s);
    }
    forall r | r in Selection(sessions, diags, dataDir, w)
      ensures exists t :: t in sessions && Keep(diags, dataDir, w, t) && r == Final(diags, dataDir, w, t)
    {
      var k :| 0 <= k < |kept| && r == Final(diags, dataDir, w, kept[k]);
      assert kept[k] in kept;
    }
  }

  /**
    When the session has an age and its subject a dated diagnosis, the result is the `NORMCOG`
    of a dated diagnosis of the same subject at the least age distance, and no earlier row of
    the diagnoses frame is as close.
  */
  lemma ClosestDiagIsNearest(s: Session, diags: seq<Diagnosis>)
    requires s.age.Some? && exists d :: d in diags && IsCandidate(s, d)
    ensures exists k :: (
      && 0 <= k < |diags| && IsCandidate(s, diags[k]) && ClosestDiag(s, diags) == diags[k].normcog
      && (forall j :: 0 <= j < |diags| && IsCandidate(s, diags[j]) ==> Distance(diags[k], s.age.value) <= Distance(diags[j], s.age.value))
      && (forall j :: 0 <= j < k && IsCandidate(s, diags[j]) ==> Distance(diags[k], s.age.value) < Distance(diags[j], s.age.value)))
  {
    var d :| d in diags && IsCandidate(s, d);
    var j :| 0 <= j < |diags| && diags[j] == d;
    var k := ClosestIndex(s, diags).value;
  }

  /** The session label is `"ses-"` and the longest underscore-free tail of the MR id. */
  lemma SessionLabelIsVisitPart(id: string, tail: string)
    requires |tail| <= |id| && tail == id[|id| - |tail|..] && '_' !in tail
    requires |tail| < |id| ==> id[|id| - |tail| - 1] == '_'
    ensures SessionLabel(id) == "ses-" + tail
  {
    var r := AfterLastUnderscore(id);
    // Neither tail reaches past the underscore that ends before the other.
    assert forall k :: |id| - |tail| <= k < |id| ==> id[k] != '_' by {
      forall k | |id| - |tail| <= k < |id|
        ensures id[k] != '_'
      {
        assert id[k] == tail[k - (|id| - |tail|)];
      }
    }
    assert forall k :: |id| - |r| <= k < |id| ==> id[k] != '_' by {
      forall k | |id| - |r| <= k < |id|
        ensures id[k] != '_'
      {
        assert id[k] == r[k - (|id| - |r|)];
      }
    }
    assert |r| == |tail|;
  }
}
