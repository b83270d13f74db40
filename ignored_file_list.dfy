/**
 * The two constant name sets of ignored_file_list.js: basenames of files and
 * of directories that the traversal skips.
 */
module IgnoredFileList {
  import opened Names

  /** `IGNORED_FILES`: system files that are skipped and never counted. */
  const IgnoredFiles: set<string> :=
    {"pagefile.sys", "hiberfil.sys", "swapfile.sys", "dumpstack.log.tmp", "memory.dmp"}

  /** `IGNORED_DIRS`: directories that are neither traversed nor counted; `windows` is commented out. */
  const IgnoredDirs: set<string> :=
    {"perflogs", "recovery", "system volume information", "$recycle.bin",
     "program files", "program files (x86)"}

  /** Every ignored file name is already lowercase, so a lowercased lookup matches regardless of case. */
  lemma IgnoredFilesAreLower()
    ensures forall n :: n in IgnoredFiles ==> IsLower(n)
  {
  }

  /** Every ignored directory name is already lowercase. */
  lemma IgnoredDirsAreLower()
    ensures forall n :: n in IgnoredDirs ==> IsLower(n)
  {
  }

  /** The two sets share no name and hold five file names and six directory names. */
  lemma IgnoredSetsShape()
    ensures IgnoredFiles !! IgnoredDirs
    ensures |IgnoredFiles| == 5 && |IgnoredDirs| == 6
  {
  }

  /** `windows` is not in the directory set (its entry is commented out). */
  lemma WindowsNotIgnored()
    ensures "windows" !in IgnoredDirs
  {
  }

  /**
   * Membership is exact: `program files` and `program files (x86)` are two
   * members, while `program files old` and `perflogs2` are not members.
   */
  lemma MembershipIsExact()
    ensures "program files" in IgnoredDirs && "program files (x86)" in IgnoredDirs
    ensures "program files" != "program files (x86)"
    ensures "program files old" !in IgnoredDirs && "perflogs2" !in IgnoredDirs
  {
  }
}
