// Directory and file helpers (DirEnt::filterDotAndDotDot and
// FileUtils::FileErrorNumToString): the scandir filter that drops the
// "." and ".." entries, and the text shown for an open(2) error number.
// Error numbers are the Linux values.

module DirUtils {
  import opened CText

  const EEXIST: int := 17
  const EISDIR: int := 21
  const EACCES: int := 13
  const ENAMETOOLONG: int := 36
  const ENOENT: int := 2
  const ENOTDIR: int := 20
  const ENXIO: int := 6
  const ENODEV: int := 19
  const EROFS: int := 30
  const ETXTBSY: int := 26
  const EFAULT: int := 14
  const ELOOP: int := 40
  const ENOSPC: int := 28
  const ENOMEM: int := 12
  const EMFILE: int := 24
  const ENFILE: int := 23
  const EBADF: int := 9

  /** filterDotAndDotDot: 0 (drop) for "." and "..", 1 (keep) otherwise; d_name is a C string. */
  function FilterDotAndDotDot(name: string): (r: int)
    ensures r == 0 || r == 1
  {
    if (CharAt(name, 0) == '.' && CharAt(name, 1) == '\0') ||
       (CharAt(name, 0) == '.' && CharAt(name, 1) == '.' && CharAt(name, 2) == '\0')
    then 0 else 1
  }

  /** A directory entry name is dropped exactly when it is "." or "..". */
  lemma {:induction false} FilterDropsOnlyDotAndDotDot(name: string)
    requires '\0' !in name
    ensures FilterDotAndDotDot(name) == 0 <==> name == "." || name == ".."
  {
    if FilterDotAndDotDot(name) == 0 {
      if CharAt(name, 1) == '\0' {
        assert |name| == 1;
      } else {
        assert |name| == 2;
      }
    }
  }

  /** Names that merely begin with dots, and short names, are kept. */
  lemma {:induction false} FilterKeepsNearMisses()
    ensures FilterDotAndDotDot(".x") == 1
    ensures FilterDotAndDotDot("...") == 1
    ensures FilterDotAndDotDot("ab") == 1
    ensures FilterDotAndDotDot("a") == 1
    ensures FilterDotAndDotDot(".") == 0 && FilterDotAndDotDot("..") == 0
  {
  }

  /** The error numbers that FileErrorNumToString has a message for. */
  const DescribedErrors: set<int> :=
    {EEXIST, EISDIR, EACCES, ENAMETOOLONG, ENOENT, ENOTDIR, ENXIO, ENODEV,
     EROFS, ETXTBSY, EFAULT, ELOOP, ENOSPC, ENOMEM, EMFILE, ENFILE}

  // The explanation FileErrorNumToString gives for each described error number.
  const EEXISTText: string :=
    "pathname already exists and O_CREAT and O_EXCL were used."
  const EISDIRText: string :=
    "pathname refers to a directory and the access " +
    "requested involved writing (that is, O_WRONLY " +
    "or O_RDWR is set)."
  const EACCESText: string :=
    "The requested access to the file is not allowed, or " +
    "one  of the directories  in  pathname did not allow " +
    "search (execute) permission, or the file did not " +
    "exist yet and write access to the parent directory " +
    "is not allowed."
  const ENAMETOOLONGText: string :=
    "pathname was too long."
  const ENOENTText: string :=
    "O_CREAT  is  not  set  and the named file does not " +
    "exist.  Or, a directory component in pathname does " +
    "not exist or is a dangling symbolic link."
  const ENOTDIRText: string :=
    "A component  used as a directory in pathname is not, " +
    "in fact, a directory, or O_DIRECTORY was specified " +
    "and pathname was not a directory."
  const ENXIOText: string :=
    "O_NONBLOCK  |  O_WRONLY  is set, the named file is a " +
    "FIFO and no process has the file open for reading.  " +
    "Or, the file is a device special file and no " +
    "corresponding device exists."
  const ENODEVText: string :=
    "pathname  refers  to  a device special file and no " +
    "corresponding device exists.  (This is a Linux kernel " +
    "bug - in this situation ENXIO must be returned.)"
  const EROFSText: string :=
    "pathname  refers  to  a file on a read-only " +
    "filesystem and write access was requested."
  const ETXTBSYText: string :=
    "pathname refers to an executable image which is " +
    "currently being executed and write access was requested."
  const EFAULTText: string :=
    "pathname points outside your accessible address space."
  const ELOOPText: string :=
    "Too many symbolic links were encountered in resolving " +
    "pathname, or O_NOFOLLOW was specified but pathname " +
    "was a symbolic link."
  const ENOSPCText: string :=
    "pathname was to be created but the  device  containing " +
    "pathname has no room for the new file."
  const ENOMEMText: string :=
    "Insufficient kernel memory was available."
  const EMFILEText: string :=
    "The process already has the maximum number of files open."
  const ENFILEText: string :=
    "The  limit  on  the total number of files open on the system " +
    "has been reached."

  /** FileErrorNumToString: the fixed explanation of an open(2) error, or "" for any other number. */
  function FileErrorNumToString(errnum: int): (r: string)
  {
    if errnum == EEXIST then EEXISTText
    else if errnum == EISDIR then EISDIRText
    else if errnum == EACCES then EACCESText
    else if errnum == ENAMETOOLONG then ENAMETOOLONGText
    else if errnum == ENOENT then ENOENTText
    else if errnum == ENOTDIR then ENOTDIRText
    else if errnum == ENXIO then ENXIOText
    else if errnum == ENODEV then ENODEVText
    else if errnum == EROFS then EROFSText
    else if errnum == ETXTBSY then ETXTBSYText
    else if errnum == EFAULT then EFAULTText
    else if errnum == ELOOP then ELOOPText
    else if errnum == ENOSPC then ENOSPCText
    else if errnum == ENOMEM then ENOMEMText
    else if errnum == EMFILE then EMFILEText
    else if errnum == ENFILE then ENFILEText
    else ""
  }

  /** A message is produced exactly for the sixteen described error numbers. */
  lemma {:induction false} ErrorMessageIffDescribed(errnum: int)
    ensures FileErrorNumToString(errnum) != "" <==> errnum in DescribedErrors
  {
  }
}
