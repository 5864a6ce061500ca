/**
 * The file system as the commands see it, and the `.md` completion of a
 * template name that both commands apply.
 */
module Files {
  import opened Wrappers
  import opened Text

  type Path = string

  /**
   * `files` holds every file that exists, with its text, or None when it
   * exists but cannot be opened or decoded as UTF-8. `promptsListing` holds
   * the names in the analysis plugin's `prompts` directory, in the order the
   * operating system lists them, or None when that directory is missing.
   */
  datatype FileSystem = FileSystem(files: map<Path, Option<string>>, promptsListing: Option<seq<string>>)

  /** `Path.exists()`. */
  predicate Exists(fs: FileSystem, p: Path) {
    p in fs.files
  }

  /** `open(p, "r", encoding="utf-8").read()`; None stands for the exception. */
  function Read(fs: FileSystem, p: Path): (r: Option<string>)
    ensures r.Some? ==> Exists(fs, p)
  {
    if p in fs.files then fs.files[p] else None
  }

  const MdSuffix: string := ".md"

  /** The `.md` completion of a template name: appended exactly when it is missing. */
  function WithMdSuffix(name: string): (r: string)
    ensures EndsWith(r, MdSuffix)
    ensures EndsWith(name, MdSuffix) <==> r == name
    ensures !EndsWith(name, MdSuffix) <==> r == name + MdSuffix
  {
    if EndsWith(name, MdSuffix) then name else name + MdSuffix
  }

  /** Completing twice is completing once. */
  lemma WithMdSuffixIdempotent(name: string)
    ensures WithMdSuffix(WithMdSuffix(name)) == WithMdSuffix(name)
  {
  }
}
