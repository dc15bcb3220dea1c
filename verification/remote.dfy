/** The remote methods of the subtitle service the client invokes, with the
    positional arguments it passes to each. Only the request is modelled;
    the transport that carries it is not. */
module Remote {
  import opened Values

  datatype Call =
    | LogIn(username: string, password: string, language: string, userAgent: string)
    | LogOut(token: Value)
    | SearchSubtitles(token: Value, filters: seq<map<string, Value>>)
    | TryUploadSubtitles(token: Value, params: Value)
    | UploadSubtitles(token: Value, params: Value)
    | NoOperation(token: Value)
    | AutoUpdate(program: string)
    | DownloadSubtitles(token: Value, ids: seq<string>)

  /** The advertised remote methods the client does not implement; each
      comment gives the arguments the service expects. */
  datatype PlannedCall =
    | SearchToMail          // token, language ids, list of (movie hash, movie size)
    | CheckSubHash          // token, list of subtitle hashes
    | CheckMovieHash        // token, list of movie hashes
    | CheckMovieHash2       // token, list of movie hashes
    | InsertMovieHash       // token, list of (hash, byte size, imdb id, duration, fps, file name)
    | DetectLanguage        // token, list of texts
    | ReportWrongMovieHash  // token, subtitle-movie-file id
    | GetSubLanguages       // interface language, "en" by default
    | GetAvailableTranslations  // token, program
    | GetTranslation        // token, ISO 639 code, format, program
    | GetIMDBMovieDetails   // token, imdb id
    | InsertMovie           // token, (movie name, movie year)
    | SubtitlesVote         // token, (subtitle id, score)
    | GetComments           // token, list of subtitle ids
    | AddComment            // token, (subtitle id, comment, bad-subtitle flag)
    | AddRequest            // token, (language id, imdb id, comment)
}
