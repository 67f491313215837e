/** The first searcher revision: a list of `[key, count, active]` slots
    tried in order, and a per-row fallback to an alternative search. */
module LegacySearcher {
  import opened Results
  import opened Text
  import opened Frames
  import opened SocialNetworks
  import opened StringUtils
  import opened Backends

  /** A key may be used up to this count; above it the slot is skipped. */
  const MaxCount := 100

  /** One `[key, count, active]` slot. */
  datatype KeySlot = KeySlot(token: string, count: nat, active: bool)

  /** The slot is tried: it is active and its count is not above 100. */
  predicate Eligible(k: KeySlot) {
    k.active && k.count <= MaxCount
  }

  /** The slot answers successfully for this query. */
  predicate Serves(k: KeySlot, query: string, backend: (string, string) -> Response) {
    Eligible(k) && backend(k.token, query).Success?
  }

  /** The slot answers with a 429. */
  predicate Throttles(k: KeySlot, query: string, backend: (string, string) -> Response) {
    Eligible(k) && backend(k.token, query) == HttpError(TooManyRequests)
  }

  /** What an attempt that does not end the call leaves in the slot. */
  function AfterFailure(k: KeySlot, query: string, backend: (string, string) -> Response): KeySlot {
    if Throttles(k, query, backend) then k.(active := false) else k
  }

  /** The first hit whose link passes the network rule, or `""`. */
  function FirstValidLink(n: Network, items: seq<Item>): (link: string)
    ensures link == "" <==> forall j | 0 <= j < |items| :: !IsValidLink(n, items[j].link)
    ensures link != "" ==> exists j | 0 <= j < |items| ::
      && items[j].link == link && IsValidLink(n, link)
      && forall i | 0 <= i < j :: !IsValidLink(n, items[i].link)
  {
    match FirstWhere(items, (it: Item) => IsValidLink(n, it.link))
    case Some(j) =>
      ValidLinkNotEmpty(n, items[j].link);
      items[j].link
    case None => ""
  }

  /** What `start_search` leaves in the slots, the link it returns, and the
      slot that answered, if any. */
  datatype Started = Started(keys: seq<KeySlot>, link: string, served: Option<nat>)

  /** `start_search` from slot `a` on, one slot per step: the reference
      definition the loop of `StartSearch` is checked against. */
  function TryFrom(keys: seq<KeySlot>, a: nat, query: string, n: Network,
                   backend: (string, string) -> Response): (r: Started)
    requires a <= |keys|
    ensures |r.keys| == |keys|
    ensures forall j | 0 <= j < |keys| :: r.keys[j].token == keys[j].token
    ensures forall j | 0 <= j < |keys| :: !keys[j].active ==> !r.keys[j].active
    ensures forall j | 0 <= j < |keys| :: r.keys[j].count <= keys[j].count + 1
    ensures forall j | 0 <= j < |keys| :: keys[j].count <= MaxCount + 1 ==> r.keys[j].count <= MaxCount + 1
    ensures r.link == "" || IsValidLink(n, r.link)
    decreases |keys| - a
  {
    if a == |keys| then Started(keys, "", None)
    else if !Eligible(keys[a]) then TryFrom(keys, a + 1, query, n, backend)
    else
      var response := backend(keys[a].token, query);
      if response.Success? then
        Started(keys[a := keys[a].(count := keys[a].count + 1)], FirstValidLink(n, response.items), Some(a))
      else if response.status == TooManyRequests then
        TryFrom(keys[a := keys[a].(active := false)], a + 1, query, n, backend)
      else
        TryFrom(keys, a + 1, query, n, backend)
  }

  /** `start_search` over the whole pool. */
  function StartSearchSpec(keys: seq<KeySlot>, query: string, n: Network,
                           backend: (string, string) -> Response): Started
  {
    TryFrom(keys, 0, query, n, backend)
  }

  /** Slots `a` to `b` failed: none served, and each holds what a failed
      attempt leaves. */
  predicate FailedBetween(keys: seq<KeySlot>, out: seq<KeySlot>, a: int, b: int, query: string,
                          backend: (string, string) -> Response)
    requires 0 <= a <= b <= |keys| == |out|
  {
    forall j | a <= j < b :: !Serves(keys[j], query, backend) && out[j] == AfterFailure(keys[j], query, backend)
  }

  /** Slots `a` to `b` are untouched. */
  predicate Untouched(keys: seq<KeySlot>, out: seq<KeySlot>, a: int, b: int)
    requires 0 <= a <= b <= |keys| == |out|
  {
    forall j | a <= j < b :: out[j] == keys[j]
  }

  /** What trying the slots from `a` on did, slot by slot, when it gave
      `r`: the slots before `a` stay; every slot tried before the one that
      answers failed; the one that answers is charged one request and gives
      the link; the later ones stay. */
  predicate TriedFrom(keys: seq<KeySlot>, a: nat, r: Started, query: string, n: Network,
                      backend: (string, string) -> Response)
    requires a <= |keys| == |r.keys|
  {
    && Untouched(keys, r.keys, 0, a)
    && (r.served.None? ==> r.link == "" && FailedBetween(keys, r.keys, a, |keys|, query, backend))
    && (r.served.Some? ==>
          var x := r.served.value;
          && a <= x < |keys| && Serves(keys[x], query, backend)
          && FailedBetween(keys, r.keys, a, x, query, backend)
          && r.keys[x] == keys[x].(count := keys[x].count + 1)
          && Untouched(keys, r.keys, x + 1, |keys|)
          && r.link == FirstValidLink(n, backend(keys[x].token, query).items))
  }

  /** A slot that fails without a 429 leaves the shape of the rest intact. */
  lemma PassStep(keys: seq<KeySlot>, a: nat, r: Started, query: string, n: Network,
                 backend: (string, string) -> Response)
    requires a < |keys| == |r.keys| && !Serves(keys[a], query, backend) && !Throttles(keys[a], query, backend)
    requires TriedFrom(keys, a + 1, r, query, n, backend)
    ensures TriedFrom(keys, a, r, query, n, backend)
  {
  }

  /** A slot switched off by a 429 leaves the shape of the rest intact. */
  lemma ThrottleStep(keys: seq<KeySlot>, a: nat, r: Started, query: string, n: Network,
                     backend: (string, string) -> Response)
    requires a < |keys| == |r.keys| && Throttles(keys[a], query, backend)
    requires TriedFrom(keys[a := keys[a].(active := false)], a + 1, r, query, n, backend)
    ensures TriedFrom(keys, a, r, query, n, backend)
  {
    var keys2 := keys[a := keys[a].(active := false)];
    assert forall j | 0 <= j < |keys| && j != a :: keys2[j] == keys[j];
  }

  lemma {:induction false} TryFromShape(keys: seq<KeySlot>, a: nat, query: string, n: Network,
                                        backend: (string, string) -> Response)
    requires a <= |keys|
    ensures TriedFrom(keys, a, TryFrom(keys, a, query, n, backend), query, n, backend)
    decreases |keys| - a
  {
    if a < |keys| {
      var r := TryFrom(keys, a, query, n, backend);
      var response := backend(keys[a].token, query);
      if !Eligible(keys[a]) || (response.HttpError? && response.status != TooManyRequests) {
        TryFromShape(keys, a + 1, query, n, backend);
        PassStep(keys, a, r, query, n, backend);
      } else if response.HttpError? {
        var keys2 := keys[a := keys[a].(active := false)];
        TryFromShape(keys2, a + 1, query, n, backend);
        ThrottleStep(keys, a, r, query, n, backend);
      }
    }
  }

  /** `start_search`: each slot is tried at most once, in order. Ineligible
      slots are skipped; a 429 switches the slot off and another HTTP error
      leaves it, and the loop goes on; the first successful answer is
      counted on its slot and ends the call with its first valid link, or
      `""`. With no successful answer the call returns `""`. */
  method StartSearch(keys: seq<KeySlot>, query: string, n: Network,
                     backend: (string, string) -> Response)
    returns (keys': seq<KeySlot>, link: string, served: Option<nat>)
    ensures Started(keys', link, served) == StartSearchSpec(keys, query, n, backend)
    ensures |keys'| == |keys|
    ensures TriedFrom(keys, 0, Started(keys', link, served), query, n, backend)
    ensures served.None? ==>
      && link == ""
      && (forall j | 0 <= j < |keys| :: !Serves(keys[j], query, backend))
      && (forall j | 0 <= j < |keys| :: keys'[j] == AfterFailure(keys[j], query, backend))
    ensures served.Some? ==>
      var a := served.value;
      && a < |keys| && Serves(keys[a], query, backend)
      && (forall j | 0 <= j < a :: !Serves(keys[j], query, backend))
      && (forall j | 0 <= j < a :: keys'[j] == AfterFailure(keys[j], query, backend))
      && keys'[a] == keys[a].(count := keys[a].count + 1)
      && (forall j | a < j < |keys| :: keys'[j] == keys[j])
      && link == FirstValidLink(n, backend(keys[a].token, query).items)
  {
    keys' := keys;
    var attempt := 0;
    while attempt < |keys|
      invariant 0 <= attempt <= |keys| && |keys'| == |keys|
      invariant TryFrom(keys', attempt, query, n, backend) == StartSearchSpec(keys, query, n, backend)
    {
      var k := keys'[attempt];
      if !Eligible(k) {
        assert TryFrom(keys', attempt, query, n, backend) == TryFrom(keys', attempt + 1, query, n, backend);
        attempt := attempt + 1;
        continue;
      }
      var response := backend(k.token, query);
      if response.Success? {
        assert TryFrom(keys', attempt, query, n, backend) ==
          Started(keys'[attempt := k.(count := k.count + 1)], FirstValidLink(n, response.items), Some(attempt));
        keys' := keys'[attempt := k.(count := k.count + 1)];
        link := FirstValidLink(n, response.items);
        served := Some(attempt);
        TryFromShape(keys, 0, query, n, backend);
        return;
      }
      if response.status == TooManyRequests {
        assert TryFrom(keys', attempt, query, n, backend) ==
          TryFrom(keys'[attempt := k.(active := false)], attempt + 1, query, n, backend);
        keys' := keys'[attempt := k.(active := false)];
      } else {
        assert TryFrom(keys', attempt, query, n, backend) == TryFrom(keys', attempt + 1, query, n, backend);
      }
      attempt := attempt + 1;
    }
    link := "";
    served := None;
    TryFromShape(keys, 0, query, n, backend);
  }

  /** The slots after some searches: the same slots, none switched back on,
      and the count bound kept. */
  predicate PoolStep(keys: seq<KeySlot>, keys': seq<KeySlot>) {
    && |keys'| == |keys|
    && (forall j | 0 <= j < |keys| :: !keys[j].active ==> !keys'[j].active)
    && ((forall j | 0 <= j < |keys| :: keys[j].count <= MaxCount + 1) ==>
          forall j | 0 <= j < |keys| :: keys'[j].count <= MaxCount + 1)
  }

  lemma PoolStepTrans(a: seq<KeySlot>, b: seq<KeySlot>, c: seq<KeySlot>)
    requires PoolStep(a, b) && PoolStep(b, c)
    ensures PoolStep(a, c)
  {
  }

  /** The services the row loop calls but the model does not compute: the
      Custom Search back-end, `search_alternative`, and `urlparse`. */
  datatype Services = Services(
    backend: (string, string) -> Response,
    alternative: string -> string,
    parse: string -> UrlParts)

  /** The outcome of one row of the first searcher's `main`: the slots
      afterwards, what `start_search` returned, the alternative query if
      one was made, and the URL written, if any. */
  datatype RowSearch = RowSearch(keys: seq<KeySlot>, cseLink: string,
                                 alternativeQuery: Option<string>, url: Option<string>)

  /** One row of `main` in src/searcher.py: the message, filtered to the
      Basic Multilingual Plane, is the query; an empty CSE result falls back
      to the alternative search with `generate_alternative_query`; a found
      link is reduced by `extract_relevant_url`. */
  function SearchRow(keys: seq<KeySlot>, message: string, n: Network, s: Services): (r: RowSearch)
    ensures var started := StartSearchSpec(keys, FilterBmp(message), n, s.backend);
      r.keys == started.keys && r.cseLink == started.link
    ensures r.cseLink == "" || IsValidLink(n, r.cseLink)
    ensures PoolStep(keys, r.keys)
    ensures r.alternativeQuery.None? <==> r.cseLink != ""
    ensures r.cseLink != "" ==> r.url == Some(ExtractRelevantUrl(s.parse, r.cseLink))
    ensures r.alternativeQuery.Some? ==>
      r.alternativeQuery.value == AlternativeQuery(n, FilterBmp(message))
    ensures r.url.Some? <==>
      r.alternativeQuery.None? || s.alternative(r.alternativeQuery.value) != ""
    ensures r.alternativeQuery.Some? && r.url.Some? ==>
      r.url.value == ExtractRelevantUrl(s.parse, s.alternative(r.alternativeQuery.value))
  {
    var query := FilterBmp(message);
    var started := StartSearchSpec(keys, query, n, s.backend);
    if started.link != "" then
      RowSearch(started.keys, started.link, None, Some(ExtractRelevantUrl(s.parse, started.link)))
    else
      var altQuery := AlternativeQuery(n, query);
      var alt := s.alternative(altQuery);
      RowSearch(started.keys, "", Some(altQuery),
                if alt != "" then Some(ExtractRelevantUrl(s.parse, alt)) else None)
  }

  /** The slots after searching `messages` one after another. */
  function PoolAfter(keys: seq<KeySlot>, messages: seq<string>, n: Network, s: Services): (keys': seq<KeySlot>)
    ensures PoolStep(keys, keys')
    decreases |messages|
  {
    if messages == [] then keys
    else
      var before := PoolAfter(keys, messages[..|messages| - 1], n, s);
      var after := SearchRow(before, messages[|messages| - 1], n, s).keys;
      PoolStepTrans(keys, before, after);
      after
  }

  lemma PoolAfterStep(keys: seq<KeySlot>, messages: seq<string>, k: nat, n: Network, s: Services)
    requires k < |messages|
    ensures PoolAfter(keys, messages[..k + 1], n, s) ==
      SearchRow(PoolAfter(keys, messages[..k], n, s), messages[k], n, s).keys
  {
    assert messages[..k + 1][..k] == messages[..k];
  }

  /** Every URL found carries the `://` that `extract_relevant_url` puts in. */
  predicate Extracted(urls: seq<Option<string>>) {
    forall i | 0 <= i < |urls| :: urls[i].Some? ==> Contains(urls[i].value, "://")
  }

  /** The URL the search of message `k` finds, starting from the slots the
      searches of the earlier messages left. */
  function RowUrl(keys: seq<KeySlot>, messages: seq<string>, k: nat, n: Network, s: Services): (url: Option<string>)
    requires k < |messages|
    ensures url.Some? ==> Contains(url.value, "://")
  {
    SearchRow(PoolAfter(keys, messages[..k], n, s), messages[k], n, s).url
  }

  /** The URL each message's search finds, in order. */
  function FoundUrls(keys: seq<KeySlot>, messages: seq<string>, n: Network, s: Services): (urls: seq<Option<string>>)
    ensures |urls| == |messages|
    ensures forall k | 0 <= k < |messages| :: urls[k] == RowUrl(keys, messages, k, n, s)
    ensures Extracted(urls)
  {
    seq(|messages|, k requires 0 <= k < |messages| => RowUrl(keys, messages, k, n, s))
  }

  /** One more row's URL extends the URLs found so far. */
  lemma UrlsSnoc(keys: seq<KeySlot>, messages: seq<string>, k: nat, n: Network, s: Services,
                 urls: seq<Option<string>>, u: Option<string>)
    requires k < |messages| && |urls| == k
    requires forall j | 0 <= j < k :: urls[j] == RowUrl(keys, messages, j, n, s)
    requires u == RowUrl(keys, messages, k, n, s)
    ensures forall j | 0 <= j < k + 1 :: (urls + [u])[j] == RowUrl(keys, messages, j, n, s)
  {
  }

  /** The searches of the row loop, one message after another, threading
      the slots through. */
  method SearchMessages(keys: seq<KeySlot>, messages: seq<string>, n: Network, s: Services)
    returns (urls: seq<Option<string>>, keys': seq<KeySlot>)
    ensures urls == FoundUrls(keys, messages, n, s)
    ensures keys' == PoolAfter(keys, messages, n, s)
    ensures Extracted(urls) && PoolStep(keys, keys')
  {
    keys' := keys;
    urls := [];
    var k := 0;
    while k < |messages|
      invariant 0 <= k <= |messages| && |urls| == k
      invariant keys' == PoolAfter(keys, messages[..k], n, s)
      invariant forall j | 0 <= j < k :: urls[j] == RowUrl(keys, messages, j, n, s)
    {
      var row := SearchRow(keys', messages[k], n, s);
      assert row.url == RowUrl(keys, messages, k, n, s);
      UrlsSnoc(keys, messages, k, n, s, urls, row.url);
      PoolAfterStep(keys, messages, k, n, s);
      keys' := row.keys;
      urls := urls + [row.url];
      k := k + 1;
    }
    assert messages[..|messages|] == messages;
    assert urls == FoundUrls(keys, messages, n, s);
  }

  /** Every row has a string `message`, so the loop can read and filter
      each one (an export without rows needs no `message` column). */
  predicate MessagesReadable(f: Frame) {
    forall k | 0 <= k < |f.rows| :: "message" in f.rows[k] && f.rows[k]["message"].Text?
  }

  /** The messages of the frame, row by row. */
  function Messages(f: Frame): (ms: seq<string>)
    requires MessagesReadable(f)
    ensures |ms| == |f.rows|
    ensures forall k | 0 <= k < |ms| :: f.rows[k]["message"] == Text(ms[k])
  {
    seq(|f.rows|, k requires 0 <= k < |f.rows| => f.rows[k]["message"].s)
  }

  /** The post-URL cell of row `k` after the loop: a found URL, else what
      the column held, else a missing value when the column is new. */
  function WrittenCell(f: Frame, col: string, k: nat, url: Option<string>): (c: Cell)
    requires WellFormed(f) && k < |f.rows|
    ensures url.Some? ==> c == Text(url.value)
    ensures url.None? && col in f.columns ==> c == f.rows[k][col]
    ensures url.None? && col !in f.columns ==> c.Null?
  {
    if url.Some? then Text(url.value)
    else if col in f.columns then f.rows[k][col]
    else Null
  }

  /** Some search found a URL. */
  predicate AnyFound(urls: seq<Option<string>>) {
    exists k | 0 <= k < |urls| :: urls[k].Some?
  }

  /** The frame after the loop's writes `data_posts.at[index, col] = url`:
      only the post-URL column changes, and it comes into being with the
      first URL written. */
  function WriteUrls(f: Frame, col: string, urls: seq<Option<string>>): (w: Frame)
    requires WellFormed(f) && |urls| == |f.rows|
    ensures WellFormed(w)
    ensures w.columns == (if col in f.columns || !AnyFound(urls) then f.columns else f.columns + [col])
    ensures |w.rows| == |f.rows|
    ensures forall k | 0 <= k < |f.rows| ::
      forall c | c in f.rows[k] && c != col :: c in w.rows[k] && w.rows[k][c] == f.rows[k][c]
    ensures col in w.columns ==>
      forall k | 0 <= k < |f.rows| :: col in w.rows[k] && w.rows[k][col] == WrittenCell(f, col, k, urls[k])
  {
    if col !in f.columns && !AnyFound(urls) then f
    else WithColumn(f, col, seq(|f.rows|, k requires 0 <= k < |f.rows| => WrittenCell(f, col, k, urls[k])))
  }

  /** The row loop of `main` in src/searcher.py: every row's `message` is
      searched in turn with the slots the earlier rows left, and the URLs
      found are written to the post-URL column. A row without a string
      `message` stops the script. */
  method SearchFrame(keys: seq<KeySlot>, f: Frame, n: Network, s: Services)
    returns (r: Result<Frame>, keys': seq<KeySlot>)
    requires WellFormed(f)
    ensures r.Ok? <==> MessagesReadable(f)
    ensures r.Err? ==> keys' == keys
    ensures r.Ok? ==>
      && keys' == PoolAfter(keys, Messages(f), n, s)
      && r.value == WriteUrls(f, PostUrlColumn(n), FoundUrls(keys, Messages(f), n, s))
  {
    keys' := keys;
    if !MessagesReadable(f) {
      return Err("KeyError or TypeError: message"), keys';
    }
    var urls;
    urls, keys' := SearchMessages(keys, Messages(f), n, s);
    r := Ok(WriteUrls(f, PostUrlColumn(n), urls));
  }
}
