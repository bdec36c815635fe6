/** How the client's calls to the backend can end, as seen by the code that
    awaits them. The transport itself is not modelled. */
module Http {

  /** A `fetch` whose body is read with `response.json()`: either the body
      parsed (whatever the status), or the call or the parse threw. */
  datatype FetchResult<T> = Parsed(data: T) | FetchThrew

  /** A mutating `POST` whose response is tested with `response.ok`: a 2xx
      status, any other status, or a rejected `fetch`. */
  datatype RequestOutcome = Ok | NotOk | RequestThrew
}
