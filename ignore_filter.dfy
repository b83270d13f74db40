/**
 * The ignore checks of `getDirectorySize` (findLargestDirs.js): the entry's
 * basename is lowercased and looked up, exactly, in the file set when the
 * entry is a file and in the directory set when it is a directory.
 */
module IgnoreFilter {
  import opened Names
  import opened IgnoredFileList

  /** `IGNORED_FILES.has(entry.name.toLowerCase())`. */
  predicate IsIgnoredFileName(name: string)
  {
    ToLower(name) in IgnoredFiles
  }

  /** `IGNORED_DIRS.has(entry.name.toLowerCase())`. */
  predicate IsIgnoredDirName(name: string)
  {
    ToLower(name) in IgnoredDirs
  }

  /** A directory name is ignored exactly when it equals some listed name ignoring case. */
  lemma IgnoredDirNameIffCaseInsensitiveMember(name: string)
    ensures IsIgnoredDirName(name) <==> exists m :: m in IgnoredDirs && EqualsIgnoringCase(name, m)
  {
    if IsIgnoredDirName(name) {
      ToLowerIdempotent(name);
      ToLowerEqualIffEqualsIgnoringCase(name, ToLower(name));
    } else {
      forall m | m in IgnoredDirs ensures !EqualsIgnoringCase(name, m) {
        IgnoredDirsAreLower();
        ToLowerFixesExactlyLowerNames(m);
        ToLowerEqualIffEqualsIgnoringCase(name, m);
      }
    }
  }

  /** A file name is ignored exactly when it equals some listed name ignoring case. */
  lemma IgnoredFileNameIffCaseInsensitiveMember(name: string)
    ensures IsIgnoredFileName(name) <==> exists m :: m in IgnoredFiles && EqualsIgnoringCase(name, m)
  {
    if IsIgnoredFileName(name) {
      ToLowerIdempotent(name);
      ToLowerEqualIffEqualsIgnoringCase(name, ToLower(name));
    } else {
      forall m | m in IgnoredFiles ensures !EqualsIgnoringCase(name, m) {
        IgnoredFilesAreLower();
        ToLowerFixesExactlyLowerNames(m);
        ToLowerEqualIffEqualsIgnoringCase(name, m);
      }
    }
  }

  /** Names that differ only in case are ignored alike, as files and as directories. */
  lemma CaseDoesNotMatter(a: string, b: string)
    requires EqualsIgnoringCase(a, b)
    ensures IsIgnoredDirName(a) == IsIgnoredDirName(b)
    ensures IsIgnoredFileName(a) == IsIgnoredFileName(b)
  {
    ToLowerEqualIffEqualsIgnoringCase(a, b);
  }

  /** `Program Files` in any of its three spellings is an ignored directory name. */
  lemma ProgramFilesSpellingsIgnored()
    ensures IsIgnoredDirName("Program Files")
    ensures IsIgnoredDirName("PROGRAM FILES")
    ensures IsIgnoredDirName("program files")
  {
    LowersTo("Program Files", "program files");
    LowersTo("PROGRAM FILES", "program files");
    LowersTo("program files", "program files");
  }

  /** `Windows` directories are traversed, and a longer name that starts with a member is not ignored. */
  lemma NotIgnoredDirNames()
    ensures !IsIgnoredDirName("Windows")
    ensures !IsIgnoredDirName("Program Files Backup")
  {
  }

  /** The sets do not cross over: a directory name is not an ignored file name, and vice versa. */
  lemma SetsApplyToTheirOwnKind()
    ensures forall n :: IsIgnoredDirName(n) ==> !IsIgnoredFileName(n)
    ensures forall n :: IsIgnoredFileName(n) ==> !IsIgnoredDirName(n)
    ensures IsIgnoredDirName("Program Files") && !IsIgnoredFileName("Program Files")
    ensures IsIgnoredFileName("PageFile.sys") && !IsIgnoredDirName("PageFile.sys")
  {
    IgnoredSetsShape();
    LowersTo("Program Files", "program files");
    LowersTo("PageFile.sys", "pagefile.sys");
  }

  /** Helper for concrete names: a name lowercases to the lowercase name it equals ignoring case. */
  lemma LowersTo(a: string, b: string)
    requires EqualsIgnoringCase(a, b) && IsLower(b)
    ensures ToLower(a) == b
  {
  }
}
