/**
  Paths and the file-name pattern shared by both preprocessing scripts.  A path is the
  sequence of its components; `pathlib` orders paths component by component.
*/
module Paths {
  import opened Ordering

  type Path = seq<string>

  predicate PathLe(p: Path, q: Path) {
    LexLe(p, q, StrLe)
  }

  lemma PathLeTotalOrder()
    ensures TotalOrder(PathLe)
  {
    StrLeTotalOrder();
    forall p: Path {
      LexLeReflexive(p, StrLe);
    }
    forall p: Path, q: Path | PathLe(p, q) && PathLe(q, p)
      ensures p == q
    {
      LexLeAntisymmetric(p, q, StrLe);
    }
    forall p: Path, q: Path, r: Path | PathLe(p, q) && PathLe(q, r)
      ensures PathLe(p, r)
    {
      LexLeTransitive(p, q, r, StrLe);
    }
    forall p: Path, q: Path {
      LexLeTotal(p, q, StrLe);
    }
  }

  /** `p` lies strictly below directory `dir`, at any depth. */
  predicate Under(p: Path, dir: Path) {
    |p| > |dir| && p[..|dir|] == dir
  }

  /** The last component, `Path.name`. */
  function Name(p: Path): string
    requires p != []
  {
    p[|p| - 1]
  }

  predicate StartsWith(s: string, prefix: string) {
    |prefix| <= |s| && s[..|prefix|] == prefix
  }

  predicate EndsWith(s: string, suffix: string) {
    |suffix| <= |s| && s[|s| - |suffix|..] == suffix
  }

  const T1wSuffix: string := "T1w.nii.gz"

  /**
    `fnmatch(name, f"{subject}_{session}*T1w.nii.gz")`: the name starts with the
    subject/session prefix, ends with the suffix, and the star takes the (possibly empty)
    part in between, so prefix and suffix may not overlap.
  */
  predicate MatchesT1wPattern(name: string, subject: string, session: string) {
    var prefix := subject + "_" + session;
    && |prefix| + |T1wSuffix| <= |name|
    && StartsWith(name, prefix)
    && EndsWith(name, T1wSuffix)
  }

  /** An entry `subject_dir.rglob(pattern)` yields: below `subjectDir`, with a matching name. */
  predicate IsT1wMatch(p: Path, subjectDir: Path, subject: string, session: string) {
    Under(p, subjectDir) && MatchesT1wPattern(p[|p| - 1], subject, session)
  }

  /** Everything `subject_dir.rglob(pattern)` yields. */
  function T1wMatches(entries: set<Path>, subjectDir: Path, subject: string, session: string): set<Path> {
    set p | p in entries && IsT1wMatch(p, subjectDir, subject, session)
  }
}
