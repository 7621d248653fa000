# mri-preprocessing in Dafny

A model of the three pieces of sequential logic in the mri-preprocessing repository, with
proofs of what each one guarantees.

- **Longitudinal normalisation loop** (`preprocessing/oasis3_preprocessing.py`). For every
  subject in ascending id order, and for every session of that subject in ascending
  `session_id` order, the loop looks up the session's T1-weighted volume and copies it into
  the output tree.
  - The session at position 0 is the reference. It is registered to the MNI template, and
    hd-bet builds a brain mask from the raw volume unless a mask file is already there. The
    raw volume is then masked and bias-corrected.
  - Every later session is registered to the reference volume. It is resampled once into
    MNI space through the reference's MNI transform followed by that registration, masked
    with the reference's mask, and bias-corrected.
  - ANTs and hd-bet are uninterpreted. Every image is a term that records how it was made
    (`Preprocessing.Image`), and it carries the grid it lives on (`SpaceOf`) and how many
    times it was resampled (`Resamplings`).
  - The file system is a map from paths to contents plus a set of folders.
  - An exception ends the whole run. It is the `Aborted` status, and files already written
    stay written. The exceptions modelled are a `mkdir(exist_ok=True)` onto a path that is a
    file, a copy of a match that is a folder, a read of a file that is not a volume, a
    missing mask, and a registration without a reference volume.
  - `Preprocessing` gives the loop as functions from state to state, folded by
    `Loops.Fold`. `PreprocessingLoop` gives the same loop as methods that update the state
    statement by statement, proved equal to those functions. `PreprocessingProperties`
    proves what the loop guarantees.
- **Session selection** (`preprocessing/oasis3_subject_selection.py`). Each MR session gets
  the `NORMCOG` of the diagnosis closest in age. Its ids are relabelled to the folder names
  (`sub-…`, `ses-…`). Rows without an age, without a diagnosis or without a T1w scan on disk
  are dropped (`SubjectSelection`).
- **Quality control** (`quality_control/simple_qc.py`).
  - Every `sub-*` directory entry gets the mean and the spread of its T1w intensities over the
    voxels above zero, or NaN for both when the image cannot be read.
  - The subjects are collected into a dictionary in any completion order.
  - Means outside the 1.5 × IQR Tukey fences are flagged (`SimpleQc`).
  - NaN is `None` and intensities are reals.

Behaviours of the code that the model keeps as they are:

- The reference is the session at position 0, whether or not it has an image. A
  position-0 session without an image makes the next session with an image raise
  (`NoReferenceImage`), because `earliest_img` is `None`.
- A missing mask, or a follow-up without a reference, raises, and the exception ends the
  whole run, not only the current subject.
- The mask hd-bet makes lies on the raw volume's grid. It is applied to the template-space
  follow-up images as is (`FreshMaskMeetsTemplateImage`).
- Only `earliest_img` is reset per subject. The registration and mask of an earlier subject
  stay in scope.

Shared modules:

- `Wrappers`: `Option`, `Result`.
- `Ordering`: lexicographic order, insertion sort, sorted set.
- `Paths`: paths as component sequences, and the `{subject}_{session}*T1w.nii.gz` pattern.
- `Sequences`: order-preserving filter and map.
- `Loops`: a `for` loop whose body may raise.

## Model

| member | source | states |
|---|---|---|
| Paths.PathLeTotalOrder | preprocessing/oasis3_preprocessing.py:18 | the component-wise `pathlib` order that `sorted` uses on paths is a total order |
| Ordering.StrLeTotalOrder | preprocessing/oasis3_preprocessing.py:59 | Python's code-point string order is a total order |
| Ordering.Least | preprocessing/oasis3_preprocessing.py:19 | the head of a sorted non-empty set is in the set and below every element of it |
| Ordering.SortedElements | preprocessing/oasis3_preprocessing.py:59 | `sorted` of a set is strictly ascending, holds each element once, and holds exactly the set's elements |
| Ordering.SortBy | preprocessing/oasis3_preprocessing.py:64-66 | sorting gives an ascending permutation of its input |
| Ordering.InsertKeepsSorted | preprocessing/oasis3_preprocessing.py:64-66 | inserting into an ascending sequence keeps it ascending |
| Preprocessing.FindT1wImage | preprocessing/oasis3_preprocessing.py:14-19 | a returned path exists, lies below `data_dir/subject` and has a name matching `{subject}_{session}*T1w.nii.gz` |
| Preprocessing.FindT1wImageIsSortedHead | preprocessing/oasis3_preprocessing.py:14-19 | `None` exactly when nothing matches; otherwise the least match in path order, i.e. `sorted(matches)[0]` |
| Preprocessing.FirstT1wIsLeastMatch | preprocessing/oasis3_preprocessing.py:18-19 | walking the entries in ascending order and stopping at the first match gives the least match, or `None` when there is none |
| Preprocessing.SortedSubjects | preprocessing/oasis3_preprocessing.py:59 | the subjects are strictly ascending and are exactly the ids in the `subject_id` column |
| Preprocessing.SortedSessions | preprocessing/oasis3_preprocessing.py:64-66 | one subject's sessions are ascending and are a permutation of that subject's `session_id` values |
| Preprocessing.Plan | preprocessing/oasis3_preprocessing.py:59-66 | the iteration plan lists every subject once in ascending order, each with its sessions ascending and complete |
| Preprocessing.RunBet | preprocessing/oasis3_preprocessing.py:133-151 | hd-bet runs only when the mask path does not exist, so an existing mask is never overwritten; the mask exists afterwards exactly when it existed or hd-bet wrote one, a new one is hd-bet's mask of the volume, and no other entry changes |
| Preprocessing.ReferenceSession | preprocessing/oasis3_preprocessing.py:102-169 | on an exception nothing is logged and nothing carried changes; otherwise the volume becomes `earliest_img` with its registration and mask, and one reference visit at position 0 is logged |
| Preprocessing.FollowUpSession | preprocessing/oasis3_preprocessing.py:174-212 | a later session goes on exactly when a reference volume, its registration and its mask are carried; nothing carried changes; it logs one follow-up visit of this session, or nothing when it raises |
| Preprocessing.ProcessSession | preprocessing/oasis3_preprocessing.py:78-212 | one session deletes no file or folder; when it raises nothing is logged, and when it goes on exactly one visit of this session at this position is logged |
| Preprocessing.EnterSubject | preprocessing/oasis3_preprocessing.py:69-72 | the subject folder is made, and `mkdir(exist_ok=True)` raises only when a file is in its place; only `earliest_img` is reset, the registration and mask stay; no file changes and nothing is logged |
| Preprocessing.Initial | preprocessing/oasis3_preprocessing.py:44-45 | `save_root.mkdir(exist_ok=True, parents=True)` goes on exactly when neither `save_root` nor an ancestor of it is a file, and then `save_root` and all its ancestors are folders; no file changes, nothing is logged or carried |
| Preprocessing.Run | preprocessing/oasis3_preprocessing.py:44-212 | when `save_root` cannot be made, the run stops there: no subject is visited and no file is written |
| PreprocessingLoop.VisitSession | preprocessing/oasis3_preprocessing.py:78-212 | the statement-by-statement session body computes exactly `ProcessSession`, and the three `earliest_*` variables stay consistent |
| PreprocessingLoop.VisitSubject | preprocessing/oasis3_preprocessing.py:61-212 | the subject body (folder, reset of `earliest_img`, session loop that stops at an exception) computes exactly `ProcessSubject` |
| PreprocessingLoop.RunPipeline | preprocessing/oasis3_preprocessing.py:44-212 | `save_root.mkdir` and the subject loop compute exactly `Run` |
| PreprocessingProperties.StemDropsExtension | preprocessing/oasis3_preprocessing.py:97 | `img_basename` of `<base>.nii.gz`, for a base without a dot, is the base |
| PreprocessingProperties.OutputNameDiffersFromRawName | preprocessing/oasis3_preprocessing.py:93-168 | none of the four output names of a session equals the copied `…T1w.nii.gz` name |
| PreprocessingProperties.OutputNamesDistinct | preprocessing/oasis3_preprocessing.py:122-168 | the four output suffixes give four different names |
| PreprocessingProperties.SessionFilesDistinct | preprocessing/oasis3_preprocessing.py:93-168 | in a session folder, the raw copy and the four outputs are five different paths |
| PreprocessingProperties.SessionPathsDistinct | preprocessing/oasis3_preprocessing.py:93-168 | the raw copy, the MNI image, the transform, the mask and the corrected image of a session are pairwise different paths |
| PreprocessingProperties.SessionWithoutImageIsSkipped | preprocessing/oasis3_preprocessing.py:81-90 | a session with no match only gets its output folder and a skipped visit; nothing else changes and the loop goes on |
| PreprocessingProperties.BlockedFolderAborts | preprocessing/oasis3_preprocessing.py:81-82 | when a file stands where the session folder goes, `mkdir(exist_ok=True)` raises before anything else: no folder, no copy, no visit |
| PreprocessingProperties.ReferenceSessionReached | preprocessing/oasis3_preprocessing.py:87-102 | a position-0 session with a readable match reaches the reference branch, with the raw copy written and the mask file as it was before |
| PreprocessingProperties.ReferenceBranchStatus | preprocessing/oasis3_preprocessing.py:132-160 | hd-bet runs only when the mask path does not exist; the branch goes on exactly when a mask image is then there, and raises `FileNotFoundError` when no mask was there and hd-bet wrote none |
| PreprocessingProperties.ReferenceBranchOutputs | preprocessing/oasis3_preprocessing.py:103-169 | a reference branch that goes on writes the MNI image and the transform, carries the volume, its MNI registration and the mask, and writes the raw volume masked and bias-corrected, never resampled; a fresh hd-bet mask is on the raw volume's grid |
| PreprocessingProperties.ReferenceSessionStatus | preprocessing/oasis3_preprocessing.py:135-160 | the same status facts for the whole first session: skipped hd-bet when the mask exists, `FileNotFoundError` when it is still missing, and nothing logged on an exception |
| PreprocessingProperties.ReferenceSessionOutcome | preprocessing/oasis3_preprocessing.py:102-169 | the same outputs for the whole first session: the raw copy, the MNI image, the transform, and the corrected image `N4(mask(img))` in the volume's own space; the volume, registration and mask are carried on |
| PreprocessingProperties.FollowUpSessionOutcome | preprocessing/oasis3_preprocessing.py:174-212 | a later session is resampled once, from the original volume, through `[reference→MNI, session→reference]` onto the template grid, masked with the carried mask, bias-corrected and written; nothing carried changes |
| PreprocessingProperties.FreshMaskMeetsTemplateImage | preprocessing/oasis3_preprocessing.py:133-203 | when hd-bet has just made the reference mask from a scan, a later session of the subject masks its template-space image (space `Template`) with that mask, whose space is `Native` |
| PreprocessingProperties.FollowUpWithoutReferenceAborts | preprocessing/oasis3_preprocessing.py:174-182 | a later session with an image but no `earliest_img` for its subject raises in `ants.registration` |
| PreprocessingProperties.UnreadableMatchAborts | preprocessing/oasis3_preprocessing.py:93-96 | a match that is a folder raises in `copyfile` with only the session folder made; a file that is not a volume is still copied into the session folder, then `image_read` raises; nothing is logged either way |
| PreprocessingProperties.AbortKeepsInvariant | preprocessing/oasis3_preprocessing.py:77-212 | an iteration that raises keeps the session loop's invariant |
| PreprocessingProperties.VisitKeepsInvariant | preprocessing/oasis3_preprocessing.py:77-212 | an iteration that logs a visit of the next session keeps the session loop's invariant |
| PreprocessingProperties.HistoryGrows | preprocessing/oasis3_preprocessing.py:77-212 | appending the visit of the next session keeps the visits in order, keeps a reference only at position 0, and keeps every follow-up tied to that reference |
| PreprocessingProperties.SessionStepKeepsInvariant | preprocessing/oasis3_preprocessing.py:77-212 | every branch of one session keeps the session loop's invariant |
| PreprocessingProperties.SubjectVisitsSessionsInOrder | preprocessing/oasis3_preprocessing.py:64-212 | a subject's sessions are visited once each in sorted order until one raises; only position 0 is a reference; when position 0 has no image nothing later is produced; every follow-up went through the reference volume, its transform and the one shared mask; a subject without an exception visits every session |
| PreprocessingProperties.BlockedSubjectFolderAborts | preprocessing/oasis3_preprocessing.py:69-70 | when a file stands where the subject folder goes, `mkdir(exist_ok=True)` raises and none of the subject's sessions is visited |
| PreprocessingProperties.WriteInFolder | preprocessing/oasis3_preprocessing.py:93-212 | writing one entry of a folder keeps the record that only that folder changed |
| PreprocessingProperties.SessionChangesOnlyItsFolder | preprocessing/oasis3_preprocessing.py:81-212 | a session adds or changes files only directly inside its own output folder and removes nothing |
| PreprocessingProperties.WritesInFolderBelow | preprocessing/oasis3_preprocessing.py:81-212 | writing only inside a folder below `save_root` leaves every file outside `save_root` as it was |
| PreprocessingProperties.SessionWritesBelowSaveRoot | preprocessing/oasis3_preprocessing.py:81-212 | one session changes nothing outside `save_root` |
| PreprocessingProperties.SubjectWritesBelowSaveRoot | preprocessing/oasis3_preprocessing.py:69-212 | one subject changes nothing outside `save_root` |
| PreprocessingProperties.RunLeavesInputsAlone | preprocessing/oasis3_preprocessing.py:45-212 | the whole run keeps every file outside `save_root` unchanged and creates none there; the raw data is kept whenever `data_dir` lies outside `save_root` |
| PreprocessingProperties.SubjectStepKeepsInvariant | preprocessing/oasis3_preprocessing.py:61-212 | one subject keeps the subject loop's invariant: the visits so far are a prefix of the planned visits, and all of them while nothing has raised |
| PreprocessingProperties.SubjectLoopKeepsInvariant | preprocessing/oasis3_preprocessing.py:61-212 | the subject loop keeps its invariant over any plan |
| PreprocessingProperties.RunVisitsPlanInOrder | preprocessing/oasis3_preprocessing.py:59-212 | the run visits (subject, session, position) in plan order, subjects ascending and sessions ascending; an exception cuts the sequence short, and a finished run has visited every planned session exactly once |
| SubjectSelection.ClosestIndex | preprocessing/oasis3_subject_selection.py:11-17 | missing exactly when the row has no age or its subject has no dated diagnosis; otherwise a dated diagnosis of the same subject at the least age distance, the first such row on ties (`idxmin`) |
| SubjectSelection.ClosestDiag | preprocessing/oasis3_subject_selection.py:9-19 | NaN when the row has no age or its subject no dated diagnosis; a known value is the `NORMCOG` of a dated diagnosis of the same subject |
| SubjectSelection.ClosestDiagIsNearest | preprocessing/oasis3_subject_selection.py:9-19 | with an age and a candidate, `find_closest_diag` returns the `NORMCOG` of a nearest candidate that no earlier candidate ties |
| SubjectSelection.AfterLastUnderscore | preprocessing/oasis3_subject_selection.py:76 | `split("_")[-1]` is a tail of the id without `_`, and it is preceded by `_` when shorter than the id |
| SubjectSelection.SessionLabel | preprocessing/oasis3_subject_selection.py:75-77 | the label is `ses-` followed by an underscore-free tail of the MR id |
| SubjectSelection.SessionLabelIsVisitPart | preprocessing/oasis3_subject_selection.py:75-77 | the session label is `"ses-"` followed by the unique underscore-free tail that starts right after an underscore or at the start |
| SubjectSelection.T1wExists | preprocessing/oasis3_subject_selection.py:22-32 | `t1w_exists` holds exactly when the subject folder is a directory and `find_t1w_image` finds a scan in it |
| SubjectSelection.SelectSessions | preprocessing/oasis3_subject_selection.py:68-82 | the in-place steps on `sessions_df`, in the script's order, give `Selection`: the kept rows relabelled, in input order |
| SubjectSelection.Selection | preprocessing/oasis3_subject_selection.py:68-82 | the selection never has more rows than the sessions frame; which rows, in which order, is stated by `SelectionKeepsOrder` and `SelectionMembership` |
| SubjectSelection.ColumnStepsFuse | preprocessing/oasis3_subject_selection.py:75-81 | the two relabellings and the `T1w_exists` column act as one row-wise step |
| SubjectSelection.DiagnosisFilterFirst | preprocessing/oasis3_subject_selection.py:69-72 | dropping rows without `NORMCOG` after the annotation keeps the same rows as filtering on the closest diagnosis first |
| SubjectSelection.ScanFilterFirst | preprocessing/oasis3_subject_selection.py:81-82 | keeping rows with `T1w_exists` after the relabelling keeps the same rows as filtering on the relabelled ids first |
| SubjectSelection.FiltersCombine | preprocessing/oasis3_subject_selection.py:68-82 | the three filters in a row keep exactly the rows that pass all three |
| SubjectSelection.ColumnStepsSelect | preprocessing/oasis3_subject_selection.py:68-82 | the script's chain of filters and column assignments equals `Selection` |
| SubjectSelection.SelectedRowsComplete | preprocessing/oasis3_subject_selection.py:68-82 | every selected row has an age, a `NORMCOG`, `T1w_exists` true, and `sub-`/`ses-` labels |
| SubjectSelection.SelectionKeepsOrder | preprocessing/oasis3_subject_selection.py:68-82 | the selected rows are, in order, the relabelled images of a subsequence of the input, one per kept session |
| SubjectSelection.SelectionMembership | preprocessing/oasis3_subject_selection.py:68-82 | an input session is selected exactly when it has an age, a diagnosis matched on its raw ids, and a scan found under its relabelled ids |
| SimpleQc.ComputeIqm | quality_control/simple_qc.py:20-38 | the result is keyed by the subject it was asked for, on success and on failure alike; what the two metrics are is stated by `IqmOverBrainVoxels`, `IqmIgnoresNonPositiveVoxels` and `IqmMoments` |
| SimpleQc.IqmOverBrainVoxels | quality_control/simple_qc.py:28-38 | the metrics are known exactly when the image was read and has a voxel above zero; both are known or both NaN; the mean lies between two positive voxels, so it is above zero, and the variance is not negative |
| SimpleQc.IqmIgnoresNonPositiveVoxels | quality_control/simple_qc.py:31-35 | two reads with the same voxels above zero give the same metrics: zero and negative voxels have no effect on either |
| SimpleQc.IqmMoments | quality_control/simple_qc.py:31-35 | for a read image, the metrics are known exactly when some voxel is above zero; the mean times the number of such voxels is their sum; the spread times that number is the sum of their squared distances from the mean (the population variance, numpy's `std` squared); equal voxels give their value as mean and spread zero |
| SimpleQc.Moments | quality_control/simple_qc.py:33-34 | over non-empty values, mean × count = sum and variance × count = sum of squared deviations from the mean; equal values have that value as mean and variance zero |
| SimpleQc.MeanBounds | quality_control/simple_qc.py:33 | a mean lies between any lower and upper bound of its values |
| SimpleQc.MeanWithinValues | quality_control/simple_qc.py:33 | the mean is at least one of the values and at most another |
| SimpleQc.VarianceNotNegative | quality_control/simple_qc.py:34 | the variance (the square of `std`) is not negative |
| SimpleQc.Subjects | quality_control/simple_qc.py:44 | the subjects are exactly the entries starting with `sub-`, in listing order |
| SimpleQc.IqmTable | quality_control/simple_qc.py:50-59 | the finished `iqm` has exactly one entry per subject, and each entry's mean and spread are both known or both NaN |
| SimpleQc.CollectIqm | quality_control/simple_qc.py:50-59 | in any completion order in which every future completes, `iqm` holds exactly one entry per subject, the one its own `compute_iqm` gave |
| SimpleQc.OtherSubjectsUnaffected | quality_control/simple_qc.py:53-59 | what happens when one subject's image is read, a failure included, does not change another subject's entry |
| SimpleQc.Position | quality_control/simple_qc.py:70 | the interpolation position `(n-1)·q` lies within the sorted values |
| SimpleQc.Quantile | quality_control/simple_qc.py:70 | pandas' linear quantile of sorted values lies between the smallest and the largest |
| SimpleQc.InterpolateBetween | quality_control/simple_qc.py:70 | a linearly interpolated quantile lies between the two sorted values around it |
| SimpleQc.InterpolateMonotone | quality_control/simple_qc.py:70 | linear interpolation in sorted values grows with the position and stays between the smallest and the largest value |
| SimpleQc.QuartilesMonotone | quality_control/simple_qc.py:70 | over sorted values, min ≤ q1 ≤ q3 ≤ max |
| SimpleQc.KnownMeans | quality_control/simple_qc.py:64-70 | a value is among those `quantile` uses exactly when it is some subject's non-NaN mean |
| SimpleQc.KnownMeansCounted | quality_control/simple_qc.py:64-70 | each non-NaN mean is used once per subject that has it, duplicates included, as `quantile` counts rows |
| SimpleQc.SortedMeans | quality_control/simple_qc.py:70 | the known means sorted ascending, as a permutation |
| SimpleQc.SortedKnownMeans | quality_control/simple_qc.py:70 | the sorted known means are empty exactly when every mean is NaN; otherwise both ends are means of subjects |
| SimpleQc.Quartiles | quality_control/simple_qc.py:70 | q1 and q3 are both known or both NaN, known exactly when some mean is, and then q1 ≤ q3 |
| SimpleQc.IsOutlier | quality_control/simple_qc.py:71-74 | a flagged row has a known mean and known quartiles; with q1 ≤ q3 the row is flagged exactly when its mean is known and lies more than 1.5·(q3 − q1) outside [q1, q3], so in particular below q1 or above q3 |
| SimpleQc.Outliers | quality_control/simple_qc.py:64-74 | an empty `iqm` raises `KeyError` on `df["mean"]`; otherwise every subject gets exactly one flag |
| SimpleQc.QuartilesOrdered | quality_control/simple_qc.py:70-72 | q1 and q3 are known exactly when some mean is; then q1 ≤ q3, and both lie between two subjects' means |
| SimpleQc.FlaggedOnlyOutsideQuartiles | quality_control/simple_qc.py:71-74 | a flagged subject has a known mean below q1 or above q3; a NaN mean or a mean in [q1, q3] is never flagged |
| SimpleQc.FlaggedExactlyBeyondFences | quality_control/simple_qc.py:70-74 | a subject is flagged if and only if its mean is known, the quartiles are known, and the mean is below q1 − 1.5·(q3 − q1) or above q3 + 1.5·(q3 − q1); equivalently, more than 1.5·IQR away from [q1, q3] |
| SimpleQc.UnflaggedMeansConvex | quality_control/simple_qc.py:70-74 | a known mean lying between two unflagged known means is unflagged, so only the lowest and the highest means can be flagged |
| SimpleQc.NoKnownMeanNoFlag | quality_control/simple_qc.py:74 | when every mean is NaN, nobody is flagged |

## Left out

- Preprocessing.FollowUpSession: the ANTs calls are assumed never to raise, except `registration` with `fixed=None` and `image_read` of something that is not a volume. In particular `ants.mask_image(img_mni, earliest_mask)` at oasis3_preprocessing.py:203 masks an image on the template grid with a mask on the raw grid (made at :138-155); if antspy raises on that mismatch, every follow-up session would end the run, and the model does not capture that.
- ANTs numerics are uninterpreted terms: denoising, affine registration, resampling, masking and N4 bias correction. They are floating-point algorithms in an external library.
- hd-bet is a given predicate, `Config.betWritesMask`, saying whether it writes a mask for a volume. Its exit code, its device flags and the brain image it is told not to write are not modelled.
- The CSV read, `argparse`, `tqdm`, the warning and progress `print`s and the final CSV write are left out. The rows reach the loop as a parameter.
- The templates `mni_brain` and `mni_mask` (oasis3_preprocessing.py:49-54) are read but never used, and are left out. A failure to read `mni_template` is not modelled.
- `shutil.copyfile` raising `SameFileError` is not modelled. It can only happen when `save_root` points into `data_dir` so that the copy's path is the match itself; the copy is then a no-op. Writing over a path that is a folder is modelled as overwriting it.
- Glob special characters (`[`, `?`, `*`) inside subject or session ids are not modelled; the ids are taken literally. Case folding is not modelled, which matches POSIX `pathlib`.
- PreprocessingLoop.VisitSession: sets `earliest_img`, the registration and the mask together at the end of the reference branch, not at line 103. An exception in between ends the run, so nothing can observe the difference.
- SimpleQc.ComputeIqm: the spread is kept as the population variance (`IqmMoments` states it), not as `std`, its square root. Reals have no square root here.
- SimpleQc.IqmMoments: states that equal voxels give zero spread, not the converse (zero spread only when the voxels are equal). The converse needs the step "a square is zero only at zero", which the solver's linear arithmetic does not find.
- SimpleQc.ComputeIqm: float32 rounding, voxel NaNs and infinities are not modelled; intensities are exact reals.
- SimpleQc.CollectIqm: the process pool is a sequential loop over a given completion order. Worker processes that die, and the order of rows in the dictionary and the CSV, are not modelled.
- SimpleQc.Outliers: the `std` column, the DataFrame index name and the outlier count printed at line 76 are not modelled.
- SubjectSelection.Selection: when no row is left before one of the two `apply(..., axis=1)` column assignments (lines 69 and 81), the model gives an empty selection. pandas then applies the function to an empty frame and may return a DataFrame instead of a Series, and whether assigning that to one column raises depends on the pandas version.
- SubjectSelection.SelectSessions: computes the same empty selection in that case, for the same reason.
- Of the selection frames, only the columns the script reads or writes are modelled. A missing `subject_id` or `session_id` (NaN) is not modelled.
- `quality_control/qc.py` and `csv_exploration/csv_modifier.py` are not part of this model. The first is floating-point image numerics; the second is a one-predicate CSV filter with printing.
