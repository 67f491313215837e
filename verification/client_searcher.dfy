/** The client searcher: Custom Search first, then the library search, over
    the rows of an export, writing back a post URL or the profile URL. */
module ClientSearcher {
  import opened Results
  import opened Text
  import opened SocialNetworks
  import opened StringUtils
  import opened Backends
  import CustomSearch
  import LibSearch

  /** The provider that produced the URL (`search_engine`). */
  datatype Engine = Cse | Gs

  /** Both providers' state. */
  datatype Providers = Providers(cse: CustomSearch.Manager, gs: LibSearch.SearchManager)

  /** What the program consults but the model does not compute: the
      validator, both back-ends and the URL parser. */
  datatype Oracles = Oracles(
    valid: Validator,
    cseBackend: CustomSearch.CseBackend,
    gsBackend: LibSearch.LibBackend,
    parse: string -> UrlParts)

  datatype Processed = Processed(providers: Providers, url: string, engine: Engine)

  /** The raw answers of both providers for one post, before extraction:
      the library search runs only when Custom Search found nothing. */
  function RawSearch(p: Providers, text: string, username: string, n: Network, o: Oracles): (r: Processed)
    ensures r.engine == Cse <==> CustomSearch.SearchPost(p.cse, text, username, n, o.valid, o.cseBackend).url != ""
    ensures r.providers.cse == CustomSearch.SearchPost(p.cse, text, username, n, o.valid, o.cseBackend).state
    ensures r.engine == Cse ==>
      r.providers.gs == p.gs && r.url == CustomSearch.SearchPost(p.cse, text, username, n, o.valid, o.cseBackend).url
    ensures r.engine == Gs ==>
      var g := LibSearch.SearchPost(p.gs, text, username, n, o.valid, o.gsBackend);
      r.providers.gs == g.state && r.url == g.url
  {
    var c := CustomSearch.SearchPost(p.cse, text, username, n, o.valid, o.cseBackend);
    if c.url != "" then
      Processed(p.(cse := c.state), c.url, Cse)
    else
      var g := LibSearch.SearchPost(p.gs, text, username, n, o.valid, o.gsBackend);
      Processed(Providers(c.state, g.state), g.url, Gs)
  }

  /** `process_search` as written: the answer always goes through
      `extract_relevant_url`, even when both providers returned `""`. */
  function ProcessSearchAsWritten(p: Providers, text: string, username: string, n: Network, o: Oracles): (r: Processed)
    ensures r.url != ""
    ensures r.url == ExtractRelevantUrl(o.parse, RawSearch(p, text, username, n, o).url)
    ensures r.providers == RawSearch(p, text, username, n, o).providers
    ensures r.engine == RawSearch(p, text, username, n, o).engine
  {
    var raw := RawSearch(p, text, username, n, o);
    raw.(url := ExtractRelevantUrl(o.parse, raw.url))
  }

  /** `process_search` as intended: a found link goes through
      `extract_relevant_url`, and "nothing found" stays `""`. */
  function ProcessSearch(p: Providers, text: string, username: string, n: Network, o: Oracles): (r: Processed)
    ensures r.providers == RawSearch(p, text, username, n, o).providers
    ensures r.engine == RawSearch(p, text, username, n, o).engine
    ensures r.url == "" <==> RawSearch(p, text, username, n, o).url == ""
    ensures r.url != "" ==> Contains(r.url, "://")
    ensures r.url != "" ==> r.url == ExtractRelevantUrl(o.parse, RawSearch(p, text, username, n, o).url)
  {
    var raw := RawSearch(p, text, username, n, o);
    if raw.url == "" then raw else raw.(url := ExtractRelevantUrl(o.parse, raw.url))
  }

  /** One post of an export, as the loop reads it: `username`, `message`,
      and `url`, which is absent (`NaN`) until a URL is known. */
  datatype PostRow = PostRow(username: string, text: string, url: Option<string>)

  /** Which `process_search` the loop calls: the one in the source, which
      always extracts, or the intended one, which keeps `""` for "nothing
      found" so that `post_url or profile_url` falls back. */
  datatype Revision = AsWritten | Corrected

  /** What happened to a row: it already had a URL (counted when that URL
      is not the profile URL), or it was searched; `found` says whether a
      provider returned a link, and `url` is the cell written. */
  datatype Outcome = Skipped(counted: bool) | Queried(engine: Engine, found: bool, url: string)

  datatype Visit = Visit(providers: Providers, row: PostRow, outcome: Outcome)

  /** The cell the loop writes as written: `post_url or profile_url`, with
      the as-written `process_search`. */
  function WrittenUrlAsWritten(p: Providers, row: PostRow, n: Network, o: Oracles): (cell: string)
    ensures cell == ExtractRelevantUrl(o.parse, RawSearch(p, FilterBmp(row.text), row.username, n, o).url)
  {
    var post := ProcessSearchAsWritten(p, FilterBmp(row.text), row.username, n, o).url;
    if post != "" then post else ProfileUrl(n, row.username)
  }

  /** The cell the loop writes with the intended `process_search`. */
  function WrittenUrl(p: Providers, row: PostRow, n: Network, o: Oracles): (cell: string)
    ensures RawSearch(p, FilterBmp(row.text), row.username, n, o).url == "" ==>
      cell == ProfileUrl(n, row.username)
    ensures RawSearch(p, FilterBmp(row.text), row.username, n, o).url != "" ==>
      cell == ExtractRelevantUrl(o.parse, RawSearch(p, FilterBmp(row.text), row.username, n, o).url)
  {
    var post := ProcessSearch(p, FilterBmp(row.text), row.username, n, o).url;
    if post != "" then post else ProfileUrl(n, row.username)
  }

  /** The cell a searched row receives under either revision. */
  function Cell(rev: Revision, p: Providers, row: PostRow, n: Network, o: Oracles): string {
    match rev
    case AsWritten => WrittenUrlAsWritten(p, row, n, o)
    case Corrected => WrittenUrl(p, row, n, o)
  }

  /** The cell a searched row receives when neither provider finds
      anything: `extract_relevant_url("")` as written, the profile URL as
      intended. */
  function NothingFoundCell(rev: Revision, parse: string -> UrlParts, n: Network, username: string): string {
    match rev
    case AsWritten => ExtractRelevantUrl(parse, "")
    case Corrected => ProfileUrl(n, username)
  }

  /** With the intended `process_search`, a row for which neither provider
      finds anything receives the profile URL, and a found link is written
      in its extracted form. */
  lemma WritesProfileWhenNothingFound(p: Providers, row: PostRow, n: Network, o: Oracles)
    ensures var raw := RawSearch(p, FilterBmp(row.text), row.username, n, o).url;
      && (raw == "" ==> WrittenUrl(p, row, n, o) == ProfileUrl(n, row.username))
      && (raw != "" ==> WrittenUrl(p, row, n, o) == ExtractRelevantUrl(o.parse, raw))
  {
  }

  /** As written, a searched row never receives the profile URL unless the
      extracted URL happens to equal it: when neither provider finds
      anything and the parser splits `""` into empty parts, the row gets
      `"://"`. */
  lemma AsWrittenWritesSeparator(p: Providers, row: PostRow, n: Network, o: Oracles)
    requires o.parse("") == UrlParts("", "", "")
    requires RawSearch(p, FilterBmp(row.text), row.username, n, o).url == ""
    ensures WrittenUrlAsWritten(p, row, n, o) == "://"
    ensures WrittenUrlAsWritten(p, row, n, o) != ProfileUrl(n, row.username)
  {
    assert ProfileUrl(n, row.username)[..|BaseUrl(n)|] == BaseUrl(n);
  }

  /** What visiting `row` may leave in its place, by outcome: a skipped row
      is kept; a searched row gets the cell, which holds `://` when a link
      was found and is the nothing-found cell otherwise. */
  predicate RowOk(rev: Revision, row: PostRow, written: PostRow, outcome: Outcome, n: Network,
                  parse: string -> UrlParts) {
    && written.username == row.username && written.text == row.text
    && (outcome.Skipped? <==> row.url.Some?)
    && (outcome.Skipped? ==>
          written == row && (outcome.counted <==> row.url.value != ProfileUrl(n, row.username)))
    && (outcome.Queried? ==> written == row.(url := Some(outcome.url)))
    && (outcome.Queried? && outcome.found ==> Contains(outcome.url, "://"))
    && (outcome.Queried? && !outcome.found ==>
          outcome.url == NothingFoundCell(rev, parse, n, row.username))
  }

  /** One visit against the providers' answers: a row with a URL leaves the
      providers alone; any other row is searched from `before`, leaves the
      providers as the search left them, and records the engine, whether
      the raw answer was a link, and the cell of the revision. */
  predicate StepOk(rev: Revision, row: PostRow, before: Providers, outcome: Outcome, after: Providers,
                   n: Network, o: Oracles) {
    if row.url.Some? then
      outcome.Skipped? && after == before
    else
      var raw := RawSearch(before, FilterBmp(row.text), row.username, n, o);
      && outcome == Queried(raw.engine, raw.url != "", Cell(rev, before, row, n, o))
      && after == raw.providers
  }

  /** The cell of a step follows from the raw answer alone. */
  lemma StepCell(rev: Revision, row: PostRow, before: Providers, outcome: Outcome, after: Providers,
                 n: Network, o: Oracles)
    requires StepOk(rev, row, before, outcome, after, n, o) && outcome.Queried?
    ensures outcome.found ==> Contains(outcome.url, "://")
    ensures !outcome.found ==> outcome.url == NothingFoundCell(rev, o.parse, n, row.username)
  {
  }

  /** Searches counted as successes by both providers together. */
  function ProviderSuccesses(p: Providers): nat {
    p.cse.successSearches + p.gs.successSearch
  }

  /** One iteration of the loop body of `main`, once the quota check has
      passed: a row with a URL is only counted; any other row is searched
      and gets the cell of the revision. With a validator that rejects
      empty links, the providers' success count grows by one exactly when
      a provider returned a link. */
  method VisitRow(rev: Revision, p: Providers, row: PostRow, n: Network, o: Oracles) returns (v: Visit)
    ensures StepOk(rev, row, p, v.outcome, v.providers, n, o)
    ensures RowOk(rev, row, v.row, v.outcome, n, o.parse)
    ensures p.gs.quotaExceeded ==> v.providers.gs.quotaExceeded
    ensures RejectsEmpty(o.valid) ==>
      ProviderSuccesses(v.providers) ==
        ProviderSuccesses(p) + (if v.outcome.Queried? && v.outcome.found then 1 else 0)
  {
    var profile := ProfileUrl(n, row.username);
    if row.url.Some? {
      return Visit(p, row, Skipped(row.url.value != profile));
    }
    var text := FilterBmp(row.text);
    var found;
    var r;
    match rev {
      case AsWritten =>
        r := ProcessSearchAsWritten(p, text, row.username, n, o);
        found := RawSearch(p, text, row.username, n, o).url != "";
      case Corrected =>
        r := ProcessSearch(p, text, row.username, n, o);
        found := r.url != "";
    }
    var cell := if r.url != "" then r.url else profile;
    v := Visit(r.providers, row.(url := Some(cell)), Queried(r.engine, found, cell));
    StepCell(rev, row, p, v.outcome, v.providers, n, o);
    if RejectsEmpty(o.valid) {
      CustomSearch.SuccessCountsFoundLinks(p.cse, text, row.username, n, o.valid, o.cseBackend);
      var c := CustomSearch.SearchPost(p.cse, text, row.username, n, o.valid, o.cseBackend);
      if c.url == "" {
        LibSearch.SuccessCountsFoundLinks(p.gs, text, row.username, n, o.valid, o.gsBackend);
      }
    }
  }

  /** What the final report counts for a row: a skipped row whose URL is
      not the profile URL, or a search that returned a link. */
  function Credit(o: Outcome): nat {
    match o
    case Skipped(counted) => if counted then 1 else 0
    case Queried(_, found, _) => if found then 1 else 0
  }

  function Credits(log: seq<Outcome>): nat
    decreases |log|
  {
    if log == [] then 0 else Credits(log[..|log| - 1]) + Credit(log[|log| - 1])
  }

  function SkipCredits(log: seq<Outcome>): nat
    decreases |log|
  {
    if log == [] then 0
    else SkipCredits(log[..|log| - 1]) + (if log[|log| - 1].Skipped? then Credit(log[|log| - 1]) else 0)
  }

  /** The loop result, row by row: `log` has one outcome per visited row,
      and the rows after the last visited one are unchanged. */
  predicate Matches(rev: Revision, rows: seq<PostRow>, out: seq<PostRow>, log: seq<Outcome>, n: Network,
                    parse: string -> UrlParts)
    requires |out| == |rows| && |log| <= |rows|
  {
    && (forall k | 0 <= k < |log| :: RowOk(rev, rows[k], out[k], log[k], n, parse))
    && (forall k | |log| <= k < |rows| :: out[k] == rows[k])
  }

  /** The providers' states around the visits: `trace[k]` is the state
      before row k is visited, its quota flag was clear then, and visiting
      the row led to `trace[k + 1]`. */
  predicate Traced(rev: Revision, rows: seq<PostRow>, log: seq<Outcome>, trace: seq<Providers>,
                   n: Network, o: Oracles) {
    && |log| <= |rows| && |trace| == |log| + 1
    && (forall k | 0 <= k < |log| ::
          !trace[k].gs.quotaExceeded && StepOk(rev, rows[k], trace[k], log[k], trace[k + 1], n, o))
  }

  lemma MatchesStep(rev: Revision, rows: seq<PostRow>, out: seq<PostRow>, log: seq<Outcome>, n: Network,
                    parse: string -> UrlParts, v: Visit)
    requires |out| == |rows| && |log| < |rows|
    requires Matches(rev, rows, out, log, n, parse) && RowOk(rev, rows[|log|], v.row, v.outcome, n, parse)
    ensures Matches(rev, rows, out[|log| := v.row], log + [v.outcome], n, parse)
  {
  }

  lemma TracedStep(rev: Revision, rows: seq<PostRow>, log: seq<Outcome>, trace: seq<Providers>,
                   n: Network, o: Oracles, v: Visit)
    requires Traced(rev, rows, log, trace, n, o) && |log| < |rows|
    requires !trace[|log|].gs.quotaExceeded
    requires StepOk(rev, rows[|log|], trace[|log|], v.outcome, v.providers, n, o)
    ensures Traced(rev, rows, log + [v.outcome], trace + [v.providers], n, o)
  {
    var log', trace' := log + [v.outcome], trace + [v.providers];
    forall k | 0 <= k < |log'|
      ensures !trace'[k].gs.quotaExceeded && StepOk(rev, rows[k], trace'[k], log'[k], trace'[k + 1], n, o)
    {
      if k < |log| {
        assert trace'[k] == trace[k] && trace'[k + 1] == trace[k + 1] && log'[k] == log[k];
      } else {
        assert trace'[k] == trace[k] && trace'[k + 1] == v.providers && log'[k] == v.outcome;
      }
    }
  }

  lemma {:induction false} CreditsSnoc(log: seq<Outcome>, o: Outcome)
    ensures Credits(log + [o]) == Credits(log) + Credit(o)
    ensures SkipCredits(log + [o]) == SkipCredits(log) + (if o.Skipped? then Credit(o) else 0)
  {
    assert (log + [o])[..|log|] == log;
  }

  /** The row loop of `main` in src/client/searcher.py. Before each row
      the library search's quota flag is checked and the loop stops when it
      is set; rows that already have a URL are not searched; a searched
      row gets the cell of the revision. `success` counts the rows that
      already had a URL other than the profile URL; `trace` holds the
      providers' state before each visited row and after the last. */
  method Run(rev: Revision, rows: seq<PostRow>, n: Network, p: Providers, o: Oracles)
    returns (out: seq<PostRow>, p': Providers, success: nat, log: seq<Outcome>, trace: seq<Providers>)
    ensures |out| == |rows| && |log| <= |rows|
    ensures Matches(rev, rows, out, log, n, o.parse)
    ensures Traced(rev, rows, log, trace, n, o) && trace[0] == p && trace[|log|] == p'
    ensures |log| < |rows| ==> p'.gs.quotaExceeded
    ensures p.gs.quotaExceeded ==> log == [] && out == rows
    ensures success == SkipCredits(log)
    ensures RejectsEmpty(o.valid) ==>
      success + ProviderSuccesses(p') == ProviderSuccesses(p) + Credits(log)
  {
    out := rows;
    p' := p;
    success := 0;
    log := [];
    trace := [p];
    var i := 0;
    while i < |rows|
      invariant 0 <= i <= |rows| && |out| == |rows| && |log| == i
      invariant Matches(rev, rows, out, log, n, o.parse)
      invariant Traced(rev, rows, log, trace, n, o) && trace[0] == p && trace[i] == p'
      invariant p.gs.quotaExceeded ==> i == 0
      invariant success == SkipCredits(log)
      invariant RejectsEmpty(o.valid) ==>
        success + ProviderSuccesses(p') == ProviderSuccesses(p) + Credits(log)
    {
      if p'.gs.quotaExceeded {
        break;
      }
      var v := VisitRow(rev, p', rows[i], n, o);
      MatchesStep(rev, rows, out, log, n, o.parse, v);
      TracedStep(rev, rows, log, trace, n, o, v);
      CreditsSnoc(log, v.outcome);
      if v.outcome.Skipped? && v.outcome.counted {
        success := success + 1;
      }
      p' := v.providers;
      out := out[i := v.row];
      log := log + [v.outcome];
      trace := trace + [v.providers];
      i := i + 1;
    }
  }

  /** The count `main` reports: rows that already had a post URL plus the
      searches either provider counted as successful. */
  function FoundCount(success: nat, p: Providers): nat {
    success + ProviderSuccesses(p)
  }

  /** Starting from fresh providers, the reported count is exactly the
      number of rows that had a non-profile URL or whose search returned a
      link. */
  method RunFresh(rev: Revision, rows: seq<PostRow>, n: Network, tokens: seq<string>, cseId: string, o: Oracles)
    returns (out: seq<PostRow>, found: nat, log: seq<Outcome>)
    requires RejectsEmpty(o.valid)
    ensures |out| == |rows| && |log| <= |rows|
    ensures Matches(rev, rows, out, log, n, o.parse)
    ensures found == Credits(log)
    ensures found <= |log|
  {
    var p := Providers(CustomSearch.NewManager(tokens, cseId), LibSearch.NewSearchManager());
    var p', success, trace;
    out, p', success, log, trace := Run(rev, rows, n, p, o);
    found := FoundCount(success, p');
    CreditsBound(log);
  }

  lemma {:induction false} CreditsBound(log: seq<Outcome>)
    ensures Credits(log) <= |log|
    decreases |log|
  {
    if log != [] {
      CreditsBound(log[..|log| - 1]);
    }
  }
}
