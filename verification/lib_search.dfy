/** The library-search provider: one query per post, with a quota flag
    that latches on the first HTTP 429. */
module LibSearch {
  import opened Results
  import opened SocialNetworks
  import opened Backends

  /** `SearchManager`. */
  datatype SearchManager = SearchManager(quotaExceeded: bool, successSearch: nat)

  /** `SearchManager.__init__`. */
  function NewSearchManager(): (s: SearchManager)
    ensures !s.quotaExceeded && s.successSearch == 0
  {
    SearchManager(false, 0)
  }

  /** How iterating the result generator ends: it runs out, or it raises an
      HTTP error with a status, or it raises something else. */
  datatype Failure = Exhausted | HttpFailure(status: int) | OtherFailure

  /** The hits the generator yields before it ends, and how it ends. */
  datatype LibResponse = LibResponse(results: seq<Item>, failure: Failure)

  /** The library is asked with the query alone. */
  type LibBackend = string -> LibResponse

  /** `search_post`: the first yielded hit the validator accepts is returned
      and counted; if none is accepted before the generator ends, the call
      returns `""`, and an HTTP 429 ending sets the quota flag. Every
      exception is swallowed. */
  function SearchPost(s: SearchManager, postText: string, username: string, n: Network,
                      valid: Validator, backend: LibBackend): (r: Searched<SearchManager>)
    ensures s.quotaExceeded ==> r.state.quotaExceeded
    ensures r.state.successSearch == s.successSearch || r.state.successSearch == s.successSearch + 1
    ensures r.state.quotaExceeded && !s.quotaExceeded ==>
      r.url == "" && backend(Query(n, postText, username)).failure == HttpFailure(TooManyRequests)
  {
    var answer := backend(Query(n, postText, username));
    match FirstValid(answer.results, valid, postText)
    case Some(j) =>
      Searched(s.(successSearch := s.successSearch + 1), answer.results[j].link)
    case None =>
      if answer.failure == HttpFailure(TooManyRequests) then
        Searched(s.(quotaExceeded := true), "")
      else
        Searched(s, "")
  }

  /** The answer is the first accepted hit in generator order, or `""`, and
      the success counter grows exactly when a hit is accepted. */
  lemma SearchPostResult(s: SearchManager, postText: string, username: string, n: Network,
                         valid: Validator, backend: LibBackend)
    ensures var hits := backend(Query(n, postText, username)).results;
      var r := SearchPost(s, postText, username, n, valid, backend);
      match FirstValid(hits, valid, postText)
      case Some(j) => r.url == hits[j].link && r.state.successSearch == s.successSearch + 1
      case None => r.url == "" && r.state.successSearch == s.successSearch
  {
  }

  /** With a validator that rejects empty links, the success counter grows
      by one exactly when a non-empty URL is returned. */
  lemma SuccessCountsFoundLinks(s: SearchManager, postText: string, username: string, n: Network,
                                valid: Validator, backend: LibBackend)
    requires RejectsEmpty(valid)
    ensures var r := SearchPost(s, postText, username, n, valid, backend);
      && (r.url != "" <==> r.state.successSearch == s.successSearch + 1)
      && (r.url == "" <==> r.state.successSearch == s.successSearch)
  {
    var hits := backend(Query(n, postText, username)).results;
    if FirstValid(hits, valid, postText).Some? {
      FirstValidNotEmpty(hits, valid, postText);
    }
  }

  /** The provider does not consult its own quota flag: the URL and the
      counter come out the same whichever value the flag had. */
  lemma IgnoresQuotaFlag(s: SearchManager, postText: string, username: string, n: Network,
                         valid: Validator, backend: LibBackend)
    ensures var a := SearchPost(s.(quotaExceeded := false), postText, username, n, valid, backend);
      var b := SearchPost(s.(quotaExceeded := true), postText, username, n, valid, backend);
      a.url == b.url && a.state.successSearch == b.state.successSearch
  {
  }

  /** The flag is raised exactly by a 429 that ends a search with no
      accepted hit, and is never lowered. */
  lemma QuotaLatch(s: SearchManager, postText: string, username: string, n: Network,
                   valid: Validator, backend: LibBackend)
    ensures var answer := backend(Query(n, postText, username));
      var r := SearchPost(s, postText, username, n, valid, backend);
      r.state.quotaExceeded <==>
        s.quotaExceeded
        || (answer.failure == HttpFailure(TooManyRequests)
            && FirstValid(answer.results, valid, postText).None?)
  {
  }
}
