/** The file system as the tool sees it: what reading each path yields, plus
    the two path services it borrows from the platform (glob resolution and
    `Path.GetFileName`), which stay opaque. */
module Files {
  import opened Wrappers

  newtype byte = x: int | 0 <= x < 256

  /** Reading a path either fails with the exception's message, or gives the
      raw bytes (`File.ReadAllBytes`) together with their UTF-8 text
      (`File.ReadAllText`). */
  datatype FileRead = Unreadable(message: string) | Readable(bytes: seq<byte>, text: string)

  datatype FileSystem = FileSystem(
    files: map<string, FileRead>,
    /** Glob resolution rooted at the current directory, relative paths out. */
    resolveGlob: string -> seq<string>,
    /** `Path.GetFileName` */
    fileName: string -> string)

  /** The message .NET gives for a path that does not exist. */
  function MissingFileMessage(path: string): string
  {
    "Could not find file '" + path + "'."
  }

  function Read(fs: FileSystem, path: string): FileRead
  {
    if path in fs.files then fs.files[path] else Unreadable(MissingFileMessage(path))
  }

  /** `File.ReadAllText`, which throws on an unreadable file. */
  function ReadText(fs: FileSystem, path: string): Result<string, string>
  {
    match Read(fs, path)
    case Readable(_, text) => Success(text)
    case Unreadable(message) => Failure(message)
  }
}
