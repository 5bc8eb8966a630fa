/**
 * The parts of Go's net/http that the handler touches: the response header map,
 * which handlers update in place, and the kinds of response they end with.
 */
module Http {

  /** How a request ends; the body, content type and ranges are not modelled. */
  datatype Outcome =
    | Forbidden              // http.Error with 403
    | ServerError            // http.Error with 500
    | NotFound               // http.Error with 404
    | Redirect(target: string)  // the URL argument of http.Redirect, with 302 Found
    | Serve(path: string)    // http.ServeFile of the given path

  function StatusCode(o: Outcome): int {
    match o
    case Forbidden => 403
    case ServerError => 500
    case NotFound => 404
    case Redirect(_) => 302
    case Serve(_) => 200
  }

  /**
   * http.Header as a handler sees it through w.Header(): one value per key.
   * Set replaces whatever the key held before.
   */
  class Header {
    var fields: map<string, string>

    constructor ()
      ensures fields == map[]
    {
      fields := map[];
    }

    method Set(key: string, value: string)
      modifies this
      ensures fields == old(fields)[key := value]
    {
      fields := fields[key := value];
    }
  }
}
