/** The values the handler reads: configuration, request headers and directory entries. */
module Types {

  /** The result of a call that can fail, such as os.ReadDir. */
  datatype Result<T> = Ok(value: T) | Err(message: string)

  /** An os.DirEntry: its base name and whether it is a directory. */
  datatype Entry = Entry(name: string, isDir: bool)

  /**
   * The request headers the handler reads. Go's Header.Get yields "" for an
   * absent header, so an absent Origin or Referer is the empty string here.
   */
  datatype Request = Request(origin: string, referer: string)

  /**
   * The server configuration, loaded once and never changed. The handler
   * does not read port, faviconPath or paramRedirects.
   */
  datatype Config = Config(
    port: string,
    imageDir: string,
    allowedExtensions: seq<string>,
    disableFileTypeCheck: bool,
    faviconPath: string,
    corsEnabled: bool,
    allowedOrigins: seq<string>,
    allowedMethods: seq<string>,
    allowedHeaders: seq<string>,
    mode: string,
    paramRedirects: map<string, string>,
    refererRestriction: bool,
    allowedReferers: seq<string>)

  /** The only mode value that selects redirection; any other value serves the file. */
  const RedirectMode: string := "redir"
}
