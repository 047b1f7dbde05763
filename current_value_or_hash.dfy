/*
 * The fingerprint of a generated file as it is on disk (getCurrentValueOrHash):
 * the raw text of a config file, so that it can later be diffed key by key,
 * and the md5 hex digest of the bytes of any other file, "" for a file that
 * does not exist.
 *
 * The file system is a map from path to what reading that path gives;
 * the md5 digest and the buffer-to-text decoding are parameters.
 */
module CurrentValueOrHash {
  import opened Wrappers
  import ConfigFileHelpers

  /** A rejected read: the Node error code ("ENOENT", "EISDIR", "EACCES", ...). */
  datatype ReadError = ReadError(code: string)

  /** What reading an existing path gives: its bytes, or an error other than a missing file. */
  datatype Entry = Bytes(data: seq<bv8>) | Unreadable(error: ReadError)

  type FileSystem = map<string, Entry>

  const Enoent: ReadError := ReadError("ENOENT")

  /** readFile: a path absent from the file system rejects with ENOENT. */
  function ReadFile(fs: FileSystem, path: string): (r: Result<seq<bv8>, ReadError>)
    ensures path !in fs ==> r == Err(Enoent)
    ensures r.Ok? <==> path in fs && fs[path].Bytes?
    ensures r.Ok? ==> r.value == fs[path].data
  {
    if path !in fs then Err(Enoent)
    else match fs[path]
      case Bytes(data) => Ok(data)
      case Unreadable(e) => Err(e)
  }

  /**
   * The fingerprint of `f`. `Err` is a rejected promise: a config file that
   * cannot be read (even a missing one) and a non-config file whose read
   * fails with any code other than ENOENT.
   */
  function Fingerprint(fs: FileSystem, f: string, decode: seq<bv8> -> string, md5: seq<bv8> -> string)
    : Result<string, ReadError>
  {
    if ConfigFileHelpers.IsConfigFile(f).Some? then
      match ReadFile(fs, f)
      case Err(e) => Err(e)
      case Ok(data) => Ok(decode(data))
    else
      match ReadFile(fs, f)
      case Ok(data) => Ok(md5(data))
      case Err(e) => if e.code == "ENOENT" then Ok("") else Err(e)
  }

  /** A config file is never hashed: its fingerprint is its decoded text whatever the digest. */
  lemma ConfigNeverHashes(fs: FileSystem, f: string, decode: seq<bv8> -> string, md5: seq<bv8> -> string, md5': seq<bv8> -> string)
    requires ConfigFileHelpers.IsConfigFile(f).Some?
    ensures Fingerprint(fs, f, decode, md5) == Fingerprint(fs, f, decode, md5')
    ensures Fingerprint(fs, f, decode, md5).Ok? <==> f in fs && fs[f].Bytes?
    ensures Fingerprint(fs, f, decode, md5).Ok? ==> Fingerprint(fs, f, decode, md5).value == decode(fs[f].data)
  {
  }

  /** Any other file readable on disk is fingerprinted by the digest of its bytes alone. */
  lemma OtherFilesHashed(fs: FileSystem, f: string, decode: seq<bv8> -> string, md5: seq<bv8> -> string)
    requires ConfigFileHelpers.IsConfigFile(f).None?
    requires f in fs && fs[f].Bytes?
    ensures Fingerprint(fs, f, decode, md5) == Ok(md5(fs[f].data))
  {
  }

  /** A missing file: the sentinel "" for a non-config file, a rejection for a config file. */
  lemma MissingFile(fs: FileSystem, f: string, decode: seq<bv8> -> string, md5: seq<bv8> -> string)
    requires f !in fs
    ensures ConfigFileHelpers.IsConfigFile(f).None? ==> Fingerprint(fs, f, decode, md5) == Ok("")
    ensures ConfigFileHelpers.IsConfigFile(f).Some? ==> Fingerprint(fs, f, decode, md5) == Err(Enoent)
  {
  }

  /** Errors other than ENOENT on a non-config file are rethrown unchanged. */
  lemma OtherErrorsRethrown(fs: FileSystem, f: string, decode: seq<bv8> -> string, md5: seq<bv8> -> string)
    requires f in fs && fs[f].Unreadable?
    ensures fs[f].error.code != "ENOENT" ==> Fingerprint(fs, f, decode, md5) == Err(fs[f].error)
    ensures ConfigFileHelpers.IsConfigFile(f).Some? ==> Fingerprint(fs, f, decode, md5) == Err(fs[f].error)
  {
  }

  /**
   * The fingerprint depends only on what reading the path gives: two file
   * systems that agree at `f` (or two paths of the same kind with the same
   * entry) give the same fingerprint.
   */
  lemma SameContentSameFingerprint(fs: FileSystem, fs': FileSystem, f: string, g: string,
                                   decode: seq<bv8> -> string, md5: seq<bv8> -> string)
    requires ReadFile(fs, f) == ReadFile(fs', g)
    requires ConfigFileHelpers.IsConfigFile(f).Some? <==> ConfigFileHelpers.IsConfigFile(g).Some?
    ensures Fingerprint(fs, f, decode, md5) == Fingerprint(fs', g, decode, md5)
  {
  }

  /**
   * An empty config file has the same fingerprint as a missing non-config
   * file: the sentinel "" cannot tell the two apart.
   */
  lemma EmptyConfigLooksMissing(fs: FileSystem, f: string, g: string, decode: seq<bv8> -> string, md5: seq<bv8> -> string)
    requires ConfigFileHelpers.IsConfigFile(f).Some? && f in fs && fs[f] == Bytes([])
    requires decode([]) == ""
    requires ConfigFileHelpers.IsConfigFile(g).None? && g !in fs
    ensures Fingerprint(fs, f, decode, md5) == Fingerprint(fs, g, decode, md5) == Ok("")
  {
  }
}
